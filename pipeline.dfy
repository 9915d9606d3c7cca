/**
 * The main function of create.js (create.js:102-186) as a function from what
 * one run observes to the trace of what it does and how it ends.
 */
module Pipeline {
  import opened Wrappers
  import opened Text
  import opened Answers
  import opened Manifest
  import opened Replace

  /** Linux's errno values for "bad file descriptor" and "invalid argument". */
  const EBADF := 9
  const EINVAL := 22

  /** The `conf` section of the tool's own manifest, as it stands before a run. */
  datatype Template = Template(
    name: string,
    description: string,
    repo: string,
    replaceFiles: seq<string>,
    startMsg: seq<string>,
    doneMsg: seq<string>)

  /**
   * What a run observes from outside: whether the runtime is recent enough,
   * the arguments after the script name, the working directory, whether the
   * target folder exists, the lines typed at the prompts (a missing one means
   * input ended), the outcome of each shell command, the cloned manifest (if
   * it loads) and the text files of the clone by their configured names.
   */
  datatype Environment = Environment(
    versionOk: bool,
    args: seq<string>,
    cwd: string,
    targetExists: bool,
    answers: seq<string>,
    cloneOk: bool,
    reinitOk: bool,
    installOk: bool,
    editorOk: bool,
    manifest: Option<Entries>,
    files: map<string, string>)

  /** What the metadata prompts and the arguments put into `conf`. */
  datatype Meta = Meta(
    name: string,
    runVsCode: bool,
    version: string,
    description: string,
    author: string,
    repositoryUrl: string,
    visibility: string,
    license: string)

  /** One observable effect of a run, in the order it happens. */
  datatype Effect =
    | Say(line: string)
    | Ask(question: string, default: string)
    | Shell(command: string)
    | RemoveTree(path: string)
    | WriteText(path: string, text: string)
    | WriteManifest(path: string, members: Entries)

  /**
   * How the async main function ends: it returns a code, its promise is
   * rejected by a failing step, or it waits forever on a prompt whose input
   * never comes.
   */
  datatype Outcome = Returned(code: int) | Rejected | Stalled

  datatype Session = Session(trace: seq<Effect>, outcome: Outcome)

  /** A unit of the pipeline: its effects, and whether it completes. */
  datatype Step = Step(effects: seq<Effect>, ok: bool)

  datatype Performed = Performed(effects: seq<Effect>, completed: bool)

  // ---------------------------------------------------------------------
  // Running steps in order, stopping at the first failure

  /** `await` each step in turn: a failing step's effects happen, then the run stops. */
  function Perform(steps: seq<Step>): Performed
    decreases |steps|
  {
    if steps == [] then Performed([], true)
    else if !steps[0].ok then Performed(steps[0].effects, false)
    else
      var rest := Perform(steps[1..]);
      Performed(steps[0].effects + rest.effects, rest.completed)
  }

  /** The effects of all steps, in order. */
  function Effects(steps: seq<Step>): seq<Effect>
    decreases |steps|
  {
    if steps == [] then [] else steps[0].effects + Effects(steps[1..])
  }

  predicate AllOk(steps: seq<Step>)
  {
    forall i :: 0 <= i < |steps| ==> steps[i].ok
  }

  lemma {:induction false} EffectsAppend(a: seq<Step>, b: seq<Step>)
    ensures Effects(a + b) == Effects(a) + Effects(b)
    decreases |a|
  {
    if a != [] {
      assert (a + b)[0] == a[0];
      assert (a + b)[1..] == a[1..] + b;
      EffectsAppend(a[1..], b);
      assert a[0].effects + (Effects(a[1..]) + Effects(b)) == (a[0].effects + Effects(a[1..])) + Effects(b);
    } else {
      assert a + b == b;
    }
  }

  /** The run completes exactly when every step does, and then all effects happen. */
  lemma {:induction false} PerformComplete(steps: seq<Step>)
    ensures Perform(steps).completed <==> AllOk(steps)
    ensures AllOk(steps) ==> Perform(steps).effects == Effects(steps)
    decreases |steps|
  {
    if steps != [] {
      PerformComplete(steps[1..]);
      if !AllOk(steps[1..]) {
        var i :| 0 <= i < |steps[1..]| && !steps[1..][i].ok;
        assert !steps[i + 1].ok;
      }
    }
  }

  /** Steps that all complete are followed by whatever the rest does. */
  lemma {:induction false} PerformAppend(a: seq<Step>, b: seq<Step>)
    requires AllOk(a)
    ensures Perform(a + b) == Performed(Effects(a) + Perform(b).effects, Perform(b).completed)
    decreases |a|
  {
    if a != [] {
      assert (a + b)[0] == a[0];
      assert (a + b)[1..] == a[1..] + b;
      assert a[0].ok;
      PerformAppend(a[1..], b);
      assert a[0].effects + (Effects(a[1..]) + Perform(b).effects) == (a[0].effects + Effects(a[1..])) + Perform(b).effects;
    } else {
      assert a + b == b;
    }
  }

  /** The first failing step ends the run: nothing after it happens. */
  lemma PerformStops(a: seq<Step>, s: Step, b: seq<Step>)
    requires AllOk(a) && !s.ok
    ensures Perform(a + [s] + b) == Performed(Effects(a) + s.effects, false)
  {
    assert a + [s] + b == a + ([s] + b);
    PerformAppend(a, [s] + b);
  }

  // ---------------------------------------------------------------------
  // Actions: the effects that change something outside the terminal

  predicate IsAction(e: Effect)
  {
    e.Shell? || e.RemoveTree? || e.WriteText? || e.WriteManifest?
  }

  /** The commands issued and the files removed or written, in order. */
  function Actions(trace: seq<Effect>): seq<Effect>
    decreases |trace|
  {
    if trace == [] then []
    else (if IsAction(trace[0]) then [trace[0]] else []) + Actions(trace[1..])
  }

  lemma {:induction false} ActionsAppend(a: seq<Effect>, b: seq<Effect>)
    ensures Actions(a + b) == Actions(a) + Actions(b)
    decreases |a|
  {
    if a != [] {
      assert (a + b)[0] == a[0];
      assert (a + b)[1..] == a[1..] + b;
      ActionsAppend(a[1..], b);
    } else {
      assert a + b == b;
    }
  }

  /** Output lines and prompts change nothing. */
  lemma {:induction false} ActionsOfTalk(trace: seq<Effect>)
    requires forall i :: 0 <= i < |trace| ==> trace[i].Say? || trace[i].Ask?
    ensures Actions(trace) == []
    decreases |trace|
  {
    if trace != [] {
      ActionsOfTalk(trace[1..]);
    }
  }

  // ---------------------------------------------------------------------
  // Texts and commands

  const VersionError := "Error: NodeJS version 14+ required"

  function UsageError(toolName: string): string
  {
    "Usage: npm init " + toolName + " <name> [vscode]"
  }

  function ExistsError(name: string): string
  {
    "Error: destination path '" + name + "' already exists and is not an empty directory."
  }

  function CloneCommand(repo: string, name: string): string
  {
    "git clone --depth 1 " + repo + " " + name
  }

  function ReinitCommand(repo: string): string
  {
    "git init && git add . && git commit -am \"code from " + repo + "\""
  }

  const InstallCommand := "npm i"

  function EditorCommand(folder: string): string
  {
    "code " + folder + "/."
  }

  /** `path.join(process.cwd(), name)`, without normalisation. */
  function FolderPath(cwd: string, name: string): string
  {
    cwd + "/" + name
  }

  function Says(lines: seq<string>): (trace: seq<Effect>)
    ensures |trace| == |lines|
    ensures forall i :: 0 <= i < |lines| ==> trace[i] == Say(lines[i])
  {
    seq(|lines|, i requires 0 <= i < |lines| => Say(lines[i]))
  }

  // ---------------------------------------------------------------------
  // The prompts

  /**
   * The seven prompts with their defaults, in order; the repository default
   * is built from the author already collected.
   */
  function Questions(t: Template, name: string, author: string): (qs: seq<Effect>)
    ensures |qs| == 7
  {
    [ Ask("Version", "0.0.0"),
      Ask("Description", t.description),
      Ask("Author (github username)", "-"),
      Ask("Git repo", DefaultRepoUrl(author, name)),
      Ask("Repo is private", YesNoDefault),
      Ask("License", "ISC"),
      Ask("Is the above OK?", YesNoDefault) ]
  }

  /** The prompts shown: all seven, or up to the first one whose input never comes. */
  function Prompted(t: Template, name: string, answers: seq<string>): seq<Effect>
  {
    var author := if |answers| > 2 then Resolve(answers[2], "-") else "-";
    var qs := Questions(t, name, author);
    if |answers| < 7 then qs[..|answers| + 1] else qs
  }

  /** The metadata a run collects from its arguments and the first six answers. */
  function Collect(t: Template, args: seq<string>, answers: seq<string>): Meta
    requires |args| > 0 && |answers| >= 6
  {
    var name := args[0];
    var author := Resolve(answers[2], "-");
    Meta(
      name,
      |args[1..]| > 1,
      Resolve(answers[0], "0.0.0"),
      Resolve(answers[1], t.description),
      author,
      Resolve(answers[3], DefaultRepoUrl(author, name)),
      PrivateFlag(Resolve(answers[4], YesNoDefault)),
      Resolve(answers[5], "ISC"))
  }

  // ---------------------------------------------------------------------
  // The manifest

  /** The keys copied from `conf` onto the manifest, in assignment order. */
  const OverlayKeys: seq<string> := ["name", "version", "description", "author", "repository", "private", "license"]

  /** `conf[key]` for each overlay key, as JSON. */
  function ConfValues(m: Meta): (conf: map<string, Json>)
    ensures forall k :: k in conf <==> k in OverlayKeys
  {
    map[
      "name" := JString(m.name),
      "version" := JString(m.version),
      "description" := JString(m.description),
      "author" := JString(m.author),
      "repository" := JObject([("type", JString("git")), ("url", JString(m.repositoryUrl))]),
      "private" := JString(m.visibility),
      "license" := JString(m.license)]
  }

  /** The manifest after the key loop. */
  function WrittenManifest(pkg: Entries, m: Meta): Entries
  {
    Overlay(pkg, Pairs(OverlayKeys, ConfValues(m)))
  }

  /** The manifest's own name, the text the replace step looks for. */
  function OldName(pkg: Entries): Option<string>
  {
    match Lookup(pkg, "name")
    case Some(JString(s)) => Some(s)
    case _ => None
  }

  /**
   * The manifest, if it loads, is a parsed object, so its keys are distinct,
   * and its name is a non-empty regex literal.
   */
  predicate ParsedManifest(env: Environment)
  {
    env.manifest.Some? ==>
      DistinctKeys(env.manifest.value) &&
      match OldName(env.manifest.value)
      case Some(s) => |s| > 0 && IsRegexLiteral(s)
      case None => false
  }

  /**
   * The overlay sets exactly the seven keys to the collected values: every
   * other member keeps its value and position, overlaid keys that existed
   * keep their position, and missing ones are appended in list order.
   */
  lemma ManifestOverlay(pkg: Entries, m: Meta)
    requires DistinctKeys(pkg)
    ensures var r := WrittenManifest(pkg, m);
      && DistinctKeys(r)
      && KeysOf(r) == KeysOf(pkg) + NewKeys(KeysOf(pkg), OverlayKeys)
      && (forall i :: 0 <= i < |pkg| ==>
            r[i] == (pkg[i].0, if pkg[i].0 in OverlayKeys then ConfValues(m)[pkg[i].0] else pkg[i].1))
      && (forall k :: Lookup(r, k) == if k in OverlayKeys then Some(ConfValues(m)[k]) else Lookup(pkg, k))
  {
    OverlayKeysDistinct();
    OverlayFromConf(pkg, OverlayKeys, ConfValues(m));
  }

  lemma OverlayKeysDistinct()
    ensures forall i, j :: 0 <= i < j < |OverlayKeys| ==> OverlayKeys[i] != OverlayKeys[j]
  {
  }

  // ---------------------------------------------------------------------
  // The steps after confirmation

  /** A command with its announcement; the spinner's "OK" follows only on success. */
  function ShellSteps(message: string, command: string, ok: bool): seq<Step>
  {
    [Step([Say(message), Shell(command)], ok), Step([Say("OK")], true)]
  }

  function ReplaceLine(folder: string, f: string): string
  {
    " replace " + folder + "/" + f
  }

  /** One step per file rewritten. */
  function WriteSteps(folder: string, written: seq<(string, string)>): seq<Step>
    decreases |written|
  {
    if written == [] then []
    else
      [Step([Say(ReplaceLine(folder, written[0].0)), WriteText(folder + "/" + written[0].0, written[0].1)], true)]
      + WriteSteps(folder, written[1..])
  }

  /** The file writes of the replace loop, in order. */
  function Writes(folder: string, written: seq<(string, string)>): (ws: seq<Effect>)
    ensures |ws| == |written|
    ensures forall i :: 0 <= i < |written| ==> ws[i] == WriteText(folder + "/" + written[i].0, written[i].1)
  {
    seq(|written|, i requires 0 <= i < |written| => WriteText(folder + "/" + written[i].0, written[i].1))
  }

  lemma {:induction false} WriteStepsShape(folder: string, written: seq<(string, string)>)
    ensures AllOk(WriteSteps(folder, written))
    ensures Actions(Effects(WriteSteps(folder, written))) == Writes(folder, written)
    decreases |written|
  {
    if written != [] {
      var write := WriteText(folder + "/" + written[0].0, written[0].1);
      var head := Step([Say(ReplaceLine(folder, written[0].0)), write], true);
      WriteStepsShape(folder, written[1..]);
      var rest := WriteSteps(folder, written[1..]);
      var steps := WriteSteps(folder, written);
      assert steps == [head] + rest;
      assert steps[0] == head && steps[1..] == rest;
      assert Effects(steps) == head.effects + Effects(rest);
      ActionsAppend(head.effects, Effects(rest));
      ActionsOfSay(ReplaceLine(folder, written[0].0), [write]);
      ActionsOfAction(write, []);
      assert Writes(folder, written) == [write] + Writes(folder, written[1..]);
    }
  }

  /** The replace loop: announce each file, then read, replace and write it. */
  function ReplaceSteps(folder: string, p: Patched): seq<Step>
  {
    WriteSteps(folder, p.written)
    + match p.unreadable
      case Some(f) => [Step([Say(ReplaceLine(folder, f))], false)]
      case None => []
  }

  function ReplaceHeader(): seq<Step>
  {
    [Step([Say("Replace package name in files...")], true)]
  }

  /** The replace loop's closing "OK", then the manifest write. */
  function ManifestSteps(folder: string, pkg: Entries, m: Meta): seq<Step>
  {
    [ Step([Say("OK")], true),
      Step([ Say("Writing package.json file to " + folder + "..."),
             WriteManifest(folder + "/package.json", WrittenManifest(pkg, m)),
             Say("OK") ], true) ]
  }

  /** The editor is started only when `conf.runVsCode` is set. */
  function EditorSteps(runVsCode: bool, folder: string, ok: bool): seq<Step>
  {
    if runVsCode then ShellSteps("Starting vscode...", EditorCommand(folder), ok) else []
  }

  function SummarySteps(t: Template, name: string): seq<Step>
  {
    [Step(Summary(t, name), true)]
  }

  /** The steps once the manifest has loaded. */
  function LoadedSteps(t: Template, m: Meta, env: Environment, pkg: Entries): seq<Step>
    requires match OldName(pkg) case Some(s) => |s| > 0 case None => false
  {
    var folder := FolderPath(env.cwd, m.name);
    ReplaceHeader()
    + ReplaceSteps(folder, Patch(env.files, t.replaceFiles, OldName(pkg).value, m.name))
    + ManifestSteps(folder, pkg, m)
    + ShellSteps("Initializing .git folder...", ReinitCommand(t.repo), env.reinitOk)
    + ShellSteps("Installing dependencies, please wait...", InstallCommand, env.installOk)
    + EditorSteps(m.runVsCode, folder, env.editorOk)
    + SummarySteps(t, m.name)
  }

  /** The closing lines: the `cd` line first, then the configured messages in order. */
  function Summary(t: Template, name: string): seq<Effect>
  {
    [Say("Done."), Say("Commands to run the project:")] + Says(["> cd " + name] + t.doneMsg)
  }

  /** Clone, strip the history, change directory and load the manifest. */
  function PrepareSteps(t: Template, m: Meta, env: Environment): seq<Step>
  {
    var folder := FolderPath(env.cwd, m.name);
    ShellSteps("Cloning repo " + t.repo + " to '" + m.name + "' ...", CloneCommand(t.repo, m.name), env.cloneOk)
    + [ Step([Say("Removing original .git folder..."), RemoveTree(folder + "/.git"), Say("OK")], true),
        Step([Say("Cwd: " + folder)], true),
        Step([], env.manifest.Some?) ]
  }

  /** Every step after confirmation, in order. */
  function PipelineSteps(t: Template, m: Meta, env: Environment): seq<Step>
    requires ParsedManifest(env)
  {
    PrepareSteps(t, m, env)
    + match env.manifest
      case None => []
      case Some(pkg) => LoadedSteps(t, m, env, pkg)
  }

  // ---------------------------------------------------------------------
  // The run

  /** Validation passes: the runtime is recent, a name is given and its folder is free. */
  predicate Validated(env: Environment)
  {
    env.versionOk && |env.args| > 0 && !env.targetExists
  }

  /** The confirmation prompt has an answer, and it is a yes. */
  predicate Confirmed(env: Environment)
  {
    |env.answers| >= 7 && IsYes(Resolve(env.answers[6], YesNoDefault))
  }

  function Run(t: Template, env: Environment): Session
    requires ParsedManifest(env)
  {
    if !env.versionOk then Session([Say(VersionError)], Returned(EBADF))
    else if |env.args| == 0 then Session([Say(UsageError(t.name))], Returned(EINVAL))
    else if env.targetExists then Session([Say(ExistsError(env.args[0]))], Returned(EINVAL))
    else
      var opening := Says(t.startMsg) + Prompted(t, env.args[0], env.answers);
      if |env.answers| < 7 then Session(opening, Stalled)
      else if !IsYes(Resolve(env.answers[6], YesNoDefault)) then Session(opening, Returned(0))
      else
        var p := Perform(PipelineSteps(t, Collect(t, env.args, env.answers), env));
        Session(opening + p.effects, if p.completed then Returned(0) else Rejected)
  }

  /** The trace before the first command: greeting lines and prompts only. */
  lemma OpeningIsTalk(t: Template, name: string, answers: seq<string>)
    ensures Actions(Says(t.startMsg) + Prompted(t, name, answers)) == []
  {
    var o := Says(t.startMsg) + Prompted(t, name, answers);
    forall i | 0 <= i < |o| ensures o[i].Say? || o[i].Ask? {
      if i >= |t.startMsg| {
        assert o[i] == Prompted(t, name, answers)[i - |t.startMsg|];
      }
    }
    ActionsOfTalk(o);
  }

  /**
   * A missing name, an existing target or an old runtime ends the run with
   * one error line and its code, before any prompt, command or file change.
   */
  lemma ValidationFailsFirst(t: Template, env: Environment)
    requires ParsedManifest(env)
    requires !Validated(env)
    ensures var s := Run(t, env);
      && |s.trace| == 1 && s.trace[0].Say?
      && Actions(s.trace) == []
      && s.outcome == Returned(if env.versionOk then EINVAL else EBADF)
  {
  }

  /**
   * Input that ends before the seventh answer leaves the run waiting, after
   * the greeting lines, at the prompt that follows the last answer.
   */
  lemma InputEndsEarly(t: Template, env: Environment)
    requires ParsedManifest(env) && Validated(env)
    requires |env.answers| < 7
    ensures var s := Run(t, env);
      var author := if |env.answers| > 2 then Resolve(env.answers[2], "-") else "-";
      && s.outcome == Stalled
      && Actions(s.trace) == []
      && |s.trace| == |t.startMsg| + |env.answers| + 1
      && s.trace[..|t.startMsg|] == Says(t.startMsg)
      && s.trace[|s.trace| - 1] == Questions(t, env.args[0], author)[|env.answers|]
  {
    OpeningIsTalk(t, env.args[0], env.answers);
  }

  /**
   * After the greeting lines come the seven prompts in their fixed order,
   * with the repository default built from the author answer.
   */
  lemma PromptOrder(t: Template, env: Environment)
    requires ParsedManifest(env) && Validated(env)
    requires |env.answers| >= 7
    ensures var s := Run(t, env);
      var name := env.args[0];
      && |s.trace| >= |t.startMsg| + 7
      && s.trace[..|t.startMsg|] == Says(t.startMsg)
      && s.trace[|t.startMsg|..|t.startMsg| + 7] ==
         [ Ask("Version", "0.0.0"),
           Ask("Description", t.description),
           Ask("Author (github username)", "-"),
           Ask("Git repo", "https://github.com/" + Resolve(env.answers[2], "-") + "/" + name + ".git"),
           Ask("Repo is private", "Y/n"),
           Ask("License", "ISC"),
           Ask("Is the above OK?", "Y/n") ]
  {
    var s := Run(t, env);
    var n := |t.startMsg|;
    var opening := Says(t.startMsg) + Prompted(t, env.args[0], env.answers);
    assert s.trace[..n + 7] == opening;
    assert opening[..n] == Says(t.startMsg);
    assert opening[n..n + 7] == Prompted(t, env.args[0], env.answers);
  }

  /**
   * Declining at "Is the above OK?" returns 0 after the prompts: no command
   * is issued and no file is removed or written.
   */
  lemma DeclinedDoesNothing(t: Template, env: Environment)
    requires ParsedManifest(env) && Validated(env)
    requires |env.answers| >= 7 && !Confirmed(env)
    ensures var s := Run(t, env);
      && s.outcome == Returned(0)
      && Actions(s.trace) == []
      && s.trace == Says(t.startMsg) + Prompted(t, env.args[0], env.answers)
  {
    OpeningIsTalk(t, env.args[0], env.answers);
  }

  /** The confirmation holds exactly for an empty answer or one starting with `y` or `Y`. */
  lemma ConfirmedIff(env: Environment)
    requires |env.answers| >= 7
    ensures Confirmed(env) <==>
      env.answers[6] == "" || env.answers[6][0] == 'y' || env.answers[6][0] == 'Y'
  {
    IsYesIff(Resolve(env.answers[6], YesNoDefault));
  }

  /** The actions of a run in which every step succeeds, in order. */
  function PlannedActions(t: Template, env: Environment, pkg: Entries): seq<Effect>
    requires Validated(env) && |env.answers| >= 6
    requires match OldName(pkg) case Some(s) => |s| > 0 case None => false
  {
    Plan(t, Collect(t, env.args, env.answers), env, pkg)
  }

  /**
   * The actions planned for the metadata `m`: clone, strip the history,
   * rewrite the files, write the manifest, reinitialise, install and
   * optionally start the editor.
   */
  function Plan(t: Template, m: Meta, env: Environment, pkg: Entries): seq<Effect>
    requires match OldName(pkg) case Some(s) => |s| > 0 case None => false
  {
    var folder := FolderPath(env.cwd, m.name);
    [Shell(CloneCommand(t.repo, m.name)), RemoveTree(folder + "/.git")]
    + Writes(folder, Patch(env.files, t.replaceFiles, OldName(pkg).value, m.name).written)
    + [ WriteManifest(folder + "/package.json", WrittenManifest(pkg, m)),
        Shell(ReinitCommand(t.repo)),
        Shell(InstallCommand) ]
    + (if m.runVsCode then [Shell(EditorCommand(folder))] else [])
  }

  // ---------------------------------------------------------------------
  // Shapes of the step lists

  lemma AllOkAppend(a: seq<Step>, b: seq<Step>)
    ensures AllOk(a + b) <==> AllOk(a) && AllOk(b)
  {
    if AllOk(a + b) {
      forall i | 0 <= i < |a| ensures a[i].ok {
        assert (a + b)[i] == a[i];
      }
      forall i | 0 <= i < |b| ensures b[i].ok {
        assert (a + b)[|a| + i] == b[i];
      }
    }
  }

  lemma StepActionsAppend(a: seq<Step>, b: seq<Step>)
    ensures Actions(Effects(a + b)) == Actions(Effects(a)) + Actions(Effects(b))
  {
    EffectsAppend(a, b);
    ActionsAppend(Effects(a), Effects(b));
  }

  lemma SingleStep(s: Step)
    ensures Effects([s]) == s.effects
  {
    assert [s][1..] == [];
  }

  lemma ActionsOfSay(line: string, rest: seq<Effect>)
    ensures Actions([Say(line)] + rest) == Actions(rest)
  {
    assert ([Say(line)] + rest)[1..] == rest;
  }

  lemma ActionsOfAction(e: Effect, rest: seq<Effect>)
    requires IsAction(e)
    ensures Actions([e] + rest) == [e] + Actions(rest)
  {
    assert ([e] + rest)[1..] == rest;
  }

  /** A command that succeeds issues exactly that command, and the spinner's "OK" follows. */
  lemma ShellStepsShape(message: string, command: string)
    ensures AllOk(ShellSteps(message, command, true))
    ensures Effects(ShellSteps(message, command, true)) == [Say(message), Shell(command), Say("OK")]
    ensures Actions(Effects(ShellSteps(message, command, true))) == [Shell(command)]
  {
    var a := Step([Say(message), Shell(command)], true);
    var b := Step([Say("OK")], true);
    assert ShellSteps(message, command, true) == [a] + [b];
    StepActionsAppend([a], [b]);
    SingleStep(a);
    SingleStep(b);
    ActionsOfSay(message, [Shell(command)]);
    ActionsOfAction(Shell(command), []);
    ActionsOfSay("OK", []);
  }

  /** A command that fails is the last thing a run does. */
  lemma ShellStepsFail(prefix: seq<Step>, message: string, command: string, rest: seq<Step>)
    requires AllOk(prefix)
    ensures Perform(prefix + ShellSteps(message, command, false) + rest) ==
      Performed(Effects(prefix) + [Say(message), Shell(command)], false)
  {
    var a := Step([Say(message), Shell(command)], false);
    assert prefix + ShellSteps(message, command, false) + rest == prefix + [a] + ([Step([Say("OK")], true)] + rest);
    PerformStops(prefix, a, [Step([Say("OK")], true)] + rest);
  }

  /** Cloning, stripping the history and changing directory, when the clone succeeds. */
  lemma PrepareShape(t: Template, m: Meta, env: Environment)
    requires env.cloneOk
    ensures var steps := PrepareSteps(t, m, env);
      var folder := FolderPath(env.cwd, m.name);
      && |steps| == 5
      && AllOk(steps[..4])
      && steps[4] == Step([], env.manifest.Some?)
      && Actions(Effects(steps[..4])) == [Shell(CloneCommand(t.repo, m.name)), RemoveTree(folder + "/.git")]
  {
    var folder := FolderPath(env.cwd, m.name);
    var clone := ShellSteps("Cloning repo " + t.repo + " to '" + m.name + "' ...", CloneCommand(t.repo, m.name), true);
    var strip := Step([Say("Removing original .git folder..."), RemoveTree(folder + "/.git"), Say("OK")], true);
    var cwd := Step([Say("Cwd: " + folder)], true);
    var steps := PrepareSteps(t, m, env);
    assert steps[..4] == clone + [strip] + [cwd];
    ShellStepsShape("Cloning repo " + t.repo + " to '" + m.name + "' ...", CloneCommand(t.repo, m.name));
    AllOkAppend(clone, [strip]);
    AllOkAppend(clone + [strip], [cwd]);
    StepActionsAppend(clone + [strip], [cwd]);
    StepActionsAppend(clone, [strip]);
    SingleStep(strip);
    SingleStep(cwd);
    ActionsOfSay("Removing original .git folder...", [RemoveTree(folder + "/.git"), Say("OK")]);
    ActionsOfAction(RemoveTree(folder + "/.git"), [Say("OK")]);
    ActionsOfSay("OK", []);
    ActionsOfSay("Cwd: " + folder, []);
  }

  /** The manifest write step issues exactly the write. */
  lemma WriteManifestShape(folder: string, pkg: Entries, m: Meta)
    ensures var w := ManifestSteps(folder, pkg, m);
      AllOk(w) && Actions(Effects(w)) == [WriteManifest(folder + "/package.json", WrittenManifest(pkg, m))]
  {
    var a := Step([Say("OK")], true);
    var e := WriteManifest(folder + "/package.json", WrittenManifest(pkg, m));
    var b := Step([Say("Writing package.json file to " + folder + "..."), e, Say("OK")], true);
    assert [a, b] == [a] + [b];
    StepActionsAppend([a], [b]);
    SingleStep(a);
    SingleStep(b);
    ActionsOfSay("OK", []);
    ActionsOfSay("Writing package.json file to " + folder + "...", [e, Say("OK")]);
    ActionsOfAction(e, [Say("OK")]);
  }

  lemma SummaryIsTalk(t: Template, name: string)
    ensures AllOk(SummarySteps(t, name))
    ensures Effects(SummarySteps(t, name)) == Summary(t, name)
    ensures Actions(Effects(SummarySteps(t, name))) == []
  {
    SingleStep(Step(Summary(t, name), true));
    var sm := Summary(t, name);
    forall i | 0 <= i < |sm| ensures sm[i].Say? || sm[i].Ask? {
      if i >= 2 {
        assert sm[i] == Says(["> cd " + name] + t.doneMsg)[i - 2];
      }
    }
    ActionsOfTalk(sm);
  }

  /** The replace loop when every file can be read: all its steps complete and it writes each file. */
  lemma ReplaceStepsShape(folder: string, p: Patched)
    requires p.unreadable == None
    ensures AllOk(ReplaceSteps(folder, p))
    ensures Actions(Effects(ReplaceSteps(folder, p))) == Writes(folder, p.written)
  {
    assert ReplaceSteps(folder, p) == WriteSteps(folder, p.written) + [];
    assert WriteSteps(folder, p.written) + [] == WriteSteps(folder, p.written);
    WriteStepsShape(folder, p.written);
  }

  /** Once loaded: every step completes when the commands do and every file can be read. */
  lemma LoadedCompletes(t: Template, m: Meta, env: Environment, pkg: Entries)
    requires match OldName(pkg) case Some(s) => |s| > 0 case None => false
    requires Patch(env.files, t.replaceFiles, OldName(pkg).value, m.name).unreadable == None
    requires env.reinitOk && env.installOk && (m.runVsCode ==> env.editorOk)
    ensures var steps := LoadedSteps(t, m, env, pkg);
      var folder := FolderPath(env.cwd, m.name);
      && AllOk(steps)
      && Actions(Effects(steps)) ==
         Writes(folder, Patch(env.files, t.replaceFiles, OldName(pkg).value, m.name).written)
         + [ WriteManifest(folder + "/package.json", WrittenManifest(pkg, m)),
             Shell(ReinitCommand(t.repo)),
             Shell(InstallCommand) ]
         + (if m.runVsCode then [Shell(EditorCommand(folder))] else [])
      && EndsWith(Effects(steps), Summary(t, m.name))
  {
    var folder := FolderPath(env.cwd, m.name);
    var p := Patch(env.files, t.replaceFiles, OldName(pkg).value, m.name);
    var h := ReplaceHeader();
    var r := ReplaceSteps(folder, p);
    var w := ManifestSteps(folder, pkg, m);
    var ri := ShellSteps("Initializing .git folder...", ReinitCommand(t.repo), true);
    var ins := ShellSteps("Installing dependencies, please wait...", InstallCommand, true);
    var ed := EditorSteps(m.runVsCode, folder, true);
    var sm := SummarySteps(t, m.name);
    var x1: seq<Step> := h + r;
    var x2: seq<Step> := x1 + w;
    var x3: seq<Step> := x2 + ri;
    var x4: seq<Step> := x3 + ins;
    var x5: seq<Step> := x4 + ed;
    var x6: seq<Step> := x5 + sm;
    assert LoadedSteps(t, m, env, pkg) == x6;
    HeaderShape();
    ReplaceStepsShape(folder, p);
    WriteManifestShape(folder, pkg, m);
    ShellStepsShape("Initializing .git folder...", ReinitCommand(t.repo));
    ShellStepsShape("Installing dependencies, please wait...", InstallCommand);
    EditorStepsShape(m.runVsCode, folder);
    SummaryIsTalk(t, m.name);
    AllOkAppend(h, r);
    AllOkAppend(x1, w);
    AllOkAppend(x2, ri);
    AllOkAppend(x3, ins);
    AllOkAppend(x4, ed);
    AllOkAppend(x5, sm);
    var writes := Writes(folder, p.written);
    var wm := WriteManifest(folder + "/package.json", WrittenManifest(pkg, m));
    var edActions: seq<Effect> := if m.runVsCode then [Shell(EditorCommand(folder))] else [];
    StepActionsAppend(h, r);
    assert Actions(Effects(x1)) == writes;
    StepActionsAppend(x1, w);
    StepActionsAppend(x2, ri);
    StepActionsAppend(x3, ins);
    StepActionsAppend(x4, ed);
    StepActionsAppend(x5, sm);
    assert Actions(Effects(x6)) == writes + [wm] + [Shell(ReinitCommand(t.repo))] + [Shell(InstallCommand)] + edActions + [];
    Regroup(writes, wm, Shell(ReinitCommand(t.repo)), Shell(InstallCommand), edActions);
    EffectsAppend(x5, sm);
  }

  lemma Associate<T>(a: seq<T>, b: seq<T>, c: seq<T>, d: seq<T>)
    ensures a + (b + c + d) == a + b + c + d
  {
  }

  lemma Regroup<T>(a: seq<T>, x: T, y: T, z: T, b: seq<T>)
    ensures a + [x] + [y] + [z] + b + [] == a + [x, y, z] + b
  {
  }

  lemma HeaderShape()
    ensures AllOk(ReplaceHeader()) && Actions(Effects(ReplaceHeader())) == []
  {
    SingleStep(ReplaceHeader()[0]);
    ActionsOfSay("Replace package name in files...", []);
  }

  lemma EditorStepsShape(runVsCode: bool, folder: string)
    ensures AllOk(EditorSteps(runVsCode, folder, true))
    ensures Actions(Effects(EditorSteps(runVsCode, folder, true))) ==
      if runVsCode then [Shell(EditorCommand(folder))] else []
  {
    if runVsCode {
      ShellStepsShape("Starting vscode...", EditorCommand(folder));
    }
  }

  /** With the clone done and the manifest loaded, the run goes on with the loaded steps. */
  lemma PipelineAfterLoad(t: Template, m: Meta, env: Environment, pkg: Entries)
    requires ParsedManifest(env) && env.cloneOk && env.manifest == Some(pkg)
    ensures var all := Perform(PipelineSteps(t, m, env));
      var rest := Perform(LoadedSteps(t, m, env, pkg));
      var folder := FolderPath(env.cwd, m.name);
      && all.completed == rest.completed
      && Actions(all.effects) == [Shell(CloneCommand(t.repo, m.name)), RemoveTree(folder + "/.git")] + Actions(rest.effects)
      && all.effects == Effects(PrepareSteps(t, m, env)) + rest.effects
  {
    var prep := PrepareSteps(t, m, env);
    PrepareShape(t, m, env);
    assert prep == prep[..4] + [prep[4]];
    AllOkAppend(prep[..4], [prep[4]]);
    assert PipelineSteps(t, m, env) == prep + LoadedSteps(t, m, env, pkg);
    PerformAppend(prep, LoadedSteps(t, m, env, pkg));
    PerformComplete(prep);
    EffectsAppend(prep[..4], [prep[4]]);
    SingleStep(prep[4]);
    assert Effects(prep) == Effects(prep[..4]);
    ActionsAppend(Effects(prep), Perform(LoadedSteps(t, m, env, pkg)).effects);
  }

  /** After a yes to the confirmation, the trace is the prompts followed by the steps performed. */
  lemma ConfirmedRun(t: Template, env: Environment)
    requires ParsedManifest(env) && Validated(env) && Confirmed(env)
    ensures var s := Run(t, env);
      var p := Perform(PipelineSteps(t, Collect(t, env.args, env.answers), env));
      && s.trace == Says(t.startMsg) + Prompted(t, env.args[0], env.answers) + p.effects
      && s.outcome == (if p.completed then Returned(0) else Rejected)
      && Actions(s.trace) == Actions(p.effects)
  {
    var opening := Says(t.startMsg) + Prompted(t, env.args[0], env.answers);
    OpeningIsTalk(t, env.args[0], env.answers);
    ActionsAppend(opening, Perform(PipelineSteps(t, Collect(t, env.args, env.answers), env)).effects);
  }

  /**
   * A run in which every command succeeds and every file can be read
   * returns 0 after issuing the planned actions in order, and its trace
   * ends with the summary: "Done.", the heading, the `cd` line and the
   * configured closing messages.
   */
  lemma SuccessfulRun(t: Template, env: Environment, pkg: Entries)
    requires ParsedManifest(env) && Validated(env) && Confirmed(env)
    requires env.manifest == Some(pkg)
    requires env.cloneOk && env.reinitOk && env.installOk && (|env.args| > 2 ==> env.editorOk)
    requires forall i :: 0 <= i < |t.replaceFiles| ==> t.replaceFiles[i] in env.files
    ensures var s := Run(t, env);
      var closing := [Say("Done."), Say("Commands to run the project:"), Say("> cd " + env.args[0])] + Says(t.doneMsg);
      && s.outcome == Returned(0)
      && Actions(s.trace) == PlannedActions(t, env, pkg)
      && EndsWith(s.trace, closing)
  {
    var m := Collect(t, env.args, env.answers);
    SuccessfulPipeline(t, m, env, pkg);
    ConfirmedRun(t, env);
    var all := Perform(PipelineSteps(t, m, env));
    var opening := Says(t.startMsg) + Prompted(t, env.args[0], env.answers);
    SuffixOfAppend(opening, all.effects, Summary(t, m.name));
    SummaryLines(t, m.name);
  }

  lemma SummaryLines(t: Template, name: string)
    ensures Summary(t, name) == [Say("Done."), Say("Commands to run the project:"), Say("> cd " + name)] + Says(t.doneMsg)
  {
  }

  /** The steps after the confirmation when nothing fails. */
  lemma SuccessfulPipeline(t: Template, m: Meta, env: Environment, pkg: Entries)
    requires ParsedManifest(env) && env.manifest == Some(pkg)
    requires env.cloneOk && env.reinitOk && env.installOk && (m.runVsCode ==> env.editorOk)
    requires forall i :: 0 <= i < |t.replaceFiles| ==> t.replaceFiles[i] in env.files
    ensures var all := Perform(PipelineSteps(t, m, env));
      && all.completed
      && Actions(all.effects) == Plan(t, m, env, pkg)
      && EndsWith(all.effects, Summary(t, m.name))
  {
    var folder := FolderPath(env.cwd, m.name);
    PatchAllReadable(env.files, t.replaceFiles, OldName(pkg).value, m.name);
    var loaded := LoadedSteps(t, m, env, pkg);
    LoadedCompletes(t, m, env, pkg);
    PerformComplete(loaded);
    PipelineAfterLoad(t, m, env, pkg);
    var head := [Shell(CloneCommand(t.repo, m.name)), RemoveTree(folder + "/.git")];
    var writes := Writes(folder, Patch(env.files, t.replaceFiles, OldName(pkg).value, m.name).written);
    var middle := [ WriteManifest(folder + "/package.json", WrittenManifest(pkg, m)),
                    Shell(ReinitCommand(t.repo)),
                    Shell(InstallCommand) ];
    var last: seq<Effect> := if m.runVsCode then [Shell(EditorCommand(folder))] else [];
    var all := Perform(PipelineSteps(t, m, env));
    var rest := Perform(loaded);
    assert rest.effects == Effects(loaded);
    assert Actions(rest.effects) == writes + middle + last;
    assert Actions(all.effects) == head + Actions(rest.effects);
    Associate(head, writes, middle, last);
    SuffixOfAppend(Effects(PrepareSteps(t, m, env)), Effects(loaded), Summary(t, m.name));
  }

  /** The trace `x` ends with the lines `z`. */
  predicate EndsWith(x: seq<Effect>, z: seq<Effect>)
  {
    |x| >= |z| && x[|x| - |z|..] == z
  }

  lemma SuffixOfAppend(x: seq<Effect>, y: seq<Effect>, z: seq<Effect>)
    requires EndsWith(y, z)
    ensures EndsWith(x + y, z)
  {
    assert (x + y)[|x + y| - |z|..] == y[|y| - |z|..];
  }

  // ---------------------------------------------------------------------
  // Failures

  /** A failing command after completed steps ends the run with that command. */
  lemma FailAfter(prefix: seq<Step>, message: string, command: string, rest: seq<Step>)
    requires AllOk(prefix)
    ensures var p := Perform(prefix + ShellSteps(message, command, false) + rest);
      && !p.completed
      && Actions(p.effects) == Actions(Effects(prefix)) + [Shell(command)]
      && |p.effects| > 0 && p.effects[|p.effects| - 1] == Shell(command)
  {
    ShellStepsFail(prefix, message, command, rest);
    ActionsAppend(Effects(prefix), [Say(message), Shell(command)]);
    ActionsOfSay(message, [Shell(command)]);
    ActionsOfAction(Shell(command), []);
  }

  /** With the manifest loaded, how the run ends is how the loaded steps end. */
  lemma RunAfterLoad(t: Template, env: Environment, pkg: Entries)
    requires ParsedManifest(env) && Validated(env) && Confirmed(env)
    requires env.cloneOk && env.manifest == Some(pkg)
    ensures var s := Run(t, env);
      var m := Collect(t, env.args, env.answers);
      var folder := FolderPath(env.cwd, m.name);
      var rest := Perform(LoadedSteps(t, m, env, pkg));
      && s.outcome == (if rest.completed then Returned(0) else Rejected)
      && Actions(s.trace) == [Shell(CloneCommand(t.repo, m.name)), RemoveTree(folder + "/.git")] + Actions(rest.effects)
      && (|rest.effects| > 0 ==> |s.trace| > 0 && s.trace[|s.trace| - 1] == rest.effects[|rest.effects| - 1])
  {
    var m := Collect(t, env.args, env.answers);
    PipelineAfterLoad(t, m, env, pkg);
    ConfirmedRun(t, env);
  }

  /** A failing clone is the only action of the run. */
  lemma CloneFails(t: Template, env: Environment)
    requires ParsedManifest(env) && Validated(env) && Confirmed(env)
    requires !env.cloneOk
    ensures var s := Run(t, env);
      && s.outcome == Rejected
      && Actions(s.trace) == [Shell(CloneCommand(t.repo, env.args[0]))]
      && s.trace[|s.trace| - 1] == Shell(CloneCommand(t.repo, env.args[0]))
  {
    var m := Collect(t, env.args, env.answers);
    PipelineCloneFails(t, m, env);
    ConfirmedRun(t, env);
    var opening := Says(t.startMsg) + Prompted(t, env.args[0], env.answers);
    LastOfAppend(opening, Perform(PipelineSteps(t, m, env)).effects);
  }

  /** The steps after the confirmation when the clone fails. */
  lemma PipelineCloneFails(t: Template, m: Meta, env: Environment)
    requires ParsedManifest(env) && !env.cloneOk
    ensures var p := Perform(PipelineSteps(t, m, env));
      && !p.completed
      && Actions(p.effects) == [Shell(CloneCommand(t.repo, m.name))]
      && |p.effects| > 0 && p.effects[|p.effects| - 1] == Shell(CloneCommand(t.repo, m.name))
  {
    var folder := FolderPath(env.cwd, m.name);
    var message := "Cloning repo " + t.repo + " to '" + m.name + "' ...";
    var strip: seq<Step> := [ Step([Say("Removing original .git folder..."), RemoveTree(folder + "/.git"), Say("OK")], true),
                              Step([Say("Cwd: " + folder)], true),
                              Step([], env.manifest.Some?) ];
    var loaded: seq<Step> := match env.manifest
                              case None => []
                              case Some(pkg) => LoadedSteps(t, m, env, pkg);
    var rest: seq<Step> := strip + loaded;
    var clone := ShellSteps(message, CloneCommand(t.repo, m.name), false);
    assert PipelineSteps(t, m, env) == [] + clone + rest;
    FailAfter([], message, CloneCommand(t.repo, m.name), rest);
  }

  lemma LastOfAppend(x: seq<Effect>, y: seq<Effect>)
    requires |y| > 0
    ensures (x + y)[|x + y| - 1] == y[|y| - 1]
  {
  }

  /** A manifest that does not load stops the run after the clone and the history removal. */
  lemma ManifestMissing(t: Template, env: Environment)
    requires ParsedManifest(env) && Validated(env) && Confirmed(env)
    requires env.cloneOk && env.manifest == None
    ensures var s := Run(t, env);
      && s.outcome == Rejected
      && Actions(s.trace) ==
         [Shell(CloneCommand(t.repo, env.args[0])), RemoveTree(FolderPath(env.cwd, env.args[0]) + "/.git")]
  {
    var m := Collect(t, env.args, env.answers);
    var prep := PrepareSteps(t, m, env);
    PrepareShape(t, m, env);
    assert PipelineSteps(t, m, env) == prep[..4] + [prep[4]] + [];
    PerformStops(prep[..4], prep[4], []);
    ActionsAppend(Effects(prep[..4]), []);
    ConfirmedRun(t, env);
  }

  /** The loaded steps when a configured file cannot be read. */
  lemma LoadedUnreadable(t: Template, m: Meta, env: Environment, pkg: Entries)
    requires match OldName(pkg) case Some(s) => |s| > 0 case None => false
    requires Patch(env.files, t.replaceFiles, OldName(pkg).value, m.name).unreadable.Some?
    ensures var folder := FolderPath(env.cwd, m.name);
      var p := Patch(env.files, t.replaceFiles, OldName(pkg).value, m.name);
      var r := Perform(LoadedSteps(t, m, env, pkg));
      && !r.completed
      && Actions(r.effects) == Writes(folder, p.written)
      && |r.effects| > 0 && r.effects[|r.effects| - 1] == Say(ReplaceLine(folder, p.unreadable.value))
  {
    var folder := FolderPath(env.cwd, m.name);
    var p := Patch(env.files, t.replaceFiles, OldName(pkg).value, m.name);
    var line := Say(ReplaceLine(folder, p.unreadable.value));
    var h := ReplaceHeader();
    var r := ReplaceSteps(folder, p);
    var w := ManifestSteps(folder, pkg, m);
    var ri := ShellSteps("Initializing .git folder...", ReinitCommand(t.repo), env.reinitOk);
    var ins := ShellSteps("Installing dependencies, please wait...", InstallCommand, env.installOk);
    var ed := EditorSteps(m.runVsCode, folder, env.editorOk);
    var sm := SummarySteps(t, m.name);
    var rest: seq<Step> := w + ri + ins + ed + sm;
    assert LoadedSteps(t, m, env, pkg) == h + r + w + ri + ins + ed + sm;
    Regroup7(h, r, w, ri, ins, ed, sm);
    ReplaceStepsFail(folder, p);
    HeaderShape();
    FailInside(h, r, rest);
  }

  /** Regroupings of the seven groups of the loaded steps. */
  lemma Regroup7<T>(a: seq<T>, b: seq<T>, c: seq<T>, d: seq<T>, e: seq<T>, f: seq<T>, g: seq<T>)
    ensures a + b + c + d + e + f + g == a + b + (c + d + e + f + g)
    ensures a + b + c + d + e + f + g == a + b + c + d + (e + f + g)
    ensures a + b + c + d + e + f + g == a + b + c + d + e + (f + g)
  {
  }

  /** A failure inside a group of steps ends the run there. */
  lemma FailInside(a: seq<Step>, b: seq<Step>, c: seq<Step>)
    requires AllOk(a) && !Perform(b).completed
    ensures var p := Perform(a + b + c);
      && p == Performed(Effects(a) + Perform(b).effects, false)
      && Actions(p.effects) == Actions(Effects(a)) + Actions(Perform(b).effects)
  {
    PerformFailedPrefix(b, c);
    assert a + b + c == a + (b + c);
    PerformAppend(a, b + c);
    ActionsAppend(Effects(a), Perform(b).effects);
  }

  /** A failed run of steps is not changed by steps after it. */
  lemma {:induction false} PerformFailedPrefix(a: seq<Step>, b: seq<Step>)
    requires !Perform(a).completed
    ensures Perform(a + b) == Perform(a)
    decreases |a|
  {
    assert a != [];
    assert (a + b)[0] == a[0];
    if a[0].ok {
      assert (a + b)[1..] == a[1..] + b;
      PerformFailedPrefix(a[1..], b);
    }
  }

  /** The replace loop stopping at an unreadable file. */
  lemma ReplaceStepsFail(folder: string, p: Patched)
    requires p.unreadable.Some?
    ensures var r := Perform(ReplaceSteps(folder, p));
      && !r.completed
      && Actions(r.effects) == Writes(folder, p.written)
      && |r.effects| > 0 && r.effects[|r.effects| - 1] == Say(ReplaceLine(folder, p.unreadable.value))
  {
    var bad := Step([Say(ReplaceLine(folder, p.unreadable.value))], false);
    var ws := WriteSteps(folder, p.written);
    assert ReplaceSteps(folder, p) == ws + [bad] + [];
    WriteStepsShape(folder, p.written);
    PerformStops(ws, bad, []);
    ActionsAppend(Effects(ws), bad.effects);
    ActionsOfSay(ReplaceLine(folder, p.unreadable.value), []);
  }

  /**
   * A configured file that cannot be read stops the run at that file: the
   * files before it have been rewritten, the manifest is not written and no
   * later command runs; the last line announces the failing file.
   */
  lemma UnreadableFileStops(t: Template, env: Environment, pkg: Entries)
    requires ParsedManifest(env) && Validated(env) && Confirmed(env)
    requires env.cloneOk && env.manifest == Some(pkg)
    requires Patch(env.files, t.replaceFiles, OldName(pkg).value, env.args[0]).unreadable.Some?
    ensures var s := Run(t, env);
      var folder := FolderPath(env.cwd, env.args[0]);
      var p := Patch(env.files, t.replaceFiles, OldName(pkg).value, env.args[0]);
      && s.outcome == Rejected
      && Actions(s.trace) ==
         [Shell(CloneCommand(t.repo, env.args[0])), RemoveTree(folder + "/.git")] + Writes(folder, p.written)
      && s.trace[|s.trace| - 1] == Say(ReplaceLine(folder, p.unreadable.value))
  {
    LoadedUnreadable(t, Collect(t, env.args, env.answers), env, pkg);
    RunAfterLoad(t, env, pkg);
  }

  /** The steps of the loaded stage up to the reinitialisation, when every file can be read. */
  lemma LoadedPrefix(t: Template, m: Meta, env: Environment, pkg: Entries)
    requires match OldName(pkg) case Some(s) => |s| > 0 case None => false
    requires Patch(env.files, t.replaceFiles, OldName(pkg).value, m.name).unreadable == None
    ensures var folder := FolderPath(env.cwd, m.name);
      var p := Patch(env.files, t.replaceFiles, OldName(pkg).value, m.name);
      var prefix := ReplaceHeader() + ReplaceSteps(folder, p) + ManifestSteps(folder, pkg, m);
      && AllOk(prefix)
      && Actions(Effects(prefix)) ==
         Writes(folder, p.written) + [WriteManifest(folder + "/package.json", WrittenManifest(pkg, m))]
  {
    var folder := FolderPath(env.cwd, m.name);
    var p := Patch(env.files, t.replaceFiles, OldName(pkg).value, m.name);
    var h := ReplaceHeader();
    var r := ReplaceSteps(folder, p);
    var x1: seq<Step> := h + r;
    HeaderShape();
    ReplaceStepsShape(folder, p);
    WriteManifestShape(folder, pkg, m);
    AllOkAppend(h, r);
    AllOkAppend(x1, ManifestSteps(folder, pkg, m));
    StepActionsAppend(h, r);
    StepActionsAppend(x1, ManifestSteps(folder, pkg, m));
  }

  /** The loaded steps when the reinitialisation fails. */
  lemma LoadedReinitFails(t: Template, m: Meta, env: Environment, pkg: Entries)
    requires match OldName(pkg) case Some(s) => |s| > 0 case None => false
    requires Patch(env.files, t.replaceFiles, OldName(pkg).value, m.name).unreadable == None
    requires !env.reinitOk
    ensures var folder := FolderPath(env.cwd, m.name);
      var p := Patch(env.files, t.replaceFiles, OldName(pkg).value, m.name);
      var r := Perform(LoadedSteps(t, m, env, pkg));
      && !r.completed
      && Actions(r.effects) ==
         Writes(folder, p.written) + [WriteManifest(folder + "/package.json", WrittenManifest(pkg, m)), Shell(ReinitCommand(t.repo))]
      && |r.effects| > 0 && r.effects[|r.effects| - 1] == Shell(ReinitCommand(t.repo))
  {
    var folder := FolderPath(env.cwd, m.name);
    var p := Patch(env.files, t.replaceFiles, OldName(pkg).value, m.name);
    var h := ReplaceHeader();
    var r := ReplaceSteps(folder, p);
    var w := ManifestSteps(folder, pkg, m);
    var prefix := h + r + w;
    var ri := ShellSteps("Initializing .git folder...", ReinitCommand(t.repo), false);
    var ins := ShellSteps("Installing dependencies, please wait...", InstallCommand, env.installOk);
    var ed := EditorSteps(m.runVsCode, folder, env.editorOk);
    var sm := SummarySteps(t, m.name);
    var rest: seq<Step> := ins + ed + sm;
    assert LoadedSteps(t, m, env, pkg) == h + r + w + ri + ins + ed + sm;
    Regroup7(h, r, w, ri, ins, ed, sm);
    LoadedPrefix(t, m, env, pkg);
    FailAfter(prefix, "Initializing .git folder...", ReinitCommand(t.repo), rest);
    Flatten2(Writes(folder, p.written), WriteManifest(folder + "/package.json", WrittenManifest(pkg, m)), Shell(ReinitCommand(t.repo)));
  }

  lemma Flatten2<T>(a: seq<T>, x: T, y: T)
    ensures a + [x] + [y] == a + [x, y]
  {
  }

  /** A failing reinitialisation stops the run: no install, no editor, no summary. */
  lemma ReinitFails(t: Template, env: Environment, pkg: Entries)
    requires ParsedManifest(env) && Validated(env) && Confirmed(env)
    requires env.cloneOk && env.manifest == Some(pkg)
    requires Patch(env.files, t.replaceFiles, OldName(pkg).value, env.args[0]).unreadable == None
    requires !env.reinitOk
    ensures var s := Run(t, env);
      var m := Collect(t, env.args, env.answers);
      var folder := FolderPath(env.cwd, env.args[0]);
      && s.outcome == Rejected
      && Actions(s.trace) ==
         [Shell(CloneCommand(t.repo, env.args[0])), RemoveTree(folder + "/.git")]
         + Writes(folder, Patch(env.files, t.replaceFiles, OldName(pkg).value, env.args[0]).written)
         + [WriteManifest(folder + "/package.json", WrittenManifest(pkg, m)), Shell(ReinitCommand(t.repo))]
      && s.trace[|s.trace| - 1] == Shell(ReinitCommand(t.repo))
  {
    var m := Collect(t, env.args, env.answers);
    LoadedReinitFails(t, m, env, pkg);
    RunAfterLoad(t, env, pkg);
    var folder := FolderPath(env.cwd, m.name);
    var writes := Writes(folder, Patch(env.files, t.replaceFiles, OldName(pkg).value, m.name).written);
    var tail := [WriteManifest(folder + "/package.json", WrittenManifest(pkg, m)), Shell(ReinitCommand(t.repo))];
    Associate3([Shell(CloneCommand(t.repo, m.name)), RemoveTree(folder + "/.git")], writes, tail);
  }

  lemma Associate3<T>(a: seq<T>, b: seq<T>, c: seq<T>)
    ensures a + (b + c) == a + b + c
  {
  }

  /** The loaded steps when the install fails. */
  lemma LoadedInstallFails(t: Template, m: Meta, env: Environment, pkg: Entries)
    requires match OldName(pkg) case Some(s) => |s| > 0 case None => false
    requires Patch(env.files, t.replaceFiles, OldName(pkg).value, m.name).unreadable == None
    requires env.reinitOk && !env.installOk
    ensures var folder := FolderPath(env.cwd, m.name);
      var p := Patch(env.files, t.replaceFiles, OldName(pkg).value, m.name);
      var r := Perform(LoadedSteps(t, m, env, pkg));
      && !r.completed
      && Actions(r.effects) ==
         Writes(folder, p.written)
         + [WriteManifest(folder + "/package.json", WrittenManifest(pkg, m)), Shell(ReinitCommand(t.repo)), Shell(InstallCommand)]
      && |r.effects| > 0 && r.effects[|r.effects| - 1] == Shell(InstallCommand)
  {
    var folder := FolderPath(env.cwd, m.name);
    var p := Patch(env.files, t.replaceFiles, OldName(pkg).value, m.name);
    var h := ReplaceHeader();
    var r := ReplaceSteps(folder, p);
    var w := ManifestSteps(folder, pkg, m);
    var pre := h + r + w;
    var ri := ShellSteps("Initializing .git folder...", ReinitCommand(t.repo), true);
    var prefix: seq<Step> := pre + ri;
    var ins := ShellSteps("Installing dependencies, please wait...", InstallCommand, false);
    var ed := EditorSteps(m.runVsCode, folder, env.editorOk);
    var sm := SummarySteps(t, m.name);
    var rest: seq<Step> := ed + sm;
    assert LoadedSteps(t, m, env, pkg) == h + r + w + ri + ins + ed + sm;
    Regroup7(h, r, w, ri, ins, ed, sm);
    LoadedPrefix(t, m, env, pkg);
    ShellStepsShape("Initializing .git folder...", ReinitCommand(t.repo));
    AllOkAppend(pre, ri);
    StepActionsAppend(pre, ri);
    FailAfter(prefix, "Installing dependencies, please wait...", InstallCommand, rest);
    Flatten3(Writes(folder, p.written), WriteManifest(folder + "/package.json", WrittenManifest(pkg, m)),
             Shell(ReinitCommand(t.repo)), Shell(InstallCommand));
  }

  lemma Flatten3<T>(a: seq<T>, x: T, y: T, z: T)
    ensures a + [x] + [y] + [z] == a + [x, y, z]
  {
  }

  /** A failing install stops the run: no editor, no summary. */
  lemma InstallFails(t: Template, env: Environment, pkg: Entries)
    requires ParsedManifest(env) && Validated(env) && Confirmed(env)
    requires env.cloneOk && env.manifest == Some(pkg)
    requires Patch(env.files, t.replaceFiles, OldName(pkg).value, env.args[0]).unreadable == None
    requires env.reinitOk && !env.installOk
    ensures var s := Run(t, env);
      var m := Collect(t, env.args, env.answers);
      var folder := FolderPath(env.cwd, env.args[0]);
      && s.outcome == Rejected
      && Actions(s.trace) ==
         [Shell(CloneCommand(t.repo, env.args[0])), RemoveTree(folder + "/.git")]
         + Writes(folder, Patch(env.files, t.replaceFiles, OldName(pkg).value, env.args[0]).written)
         + [ WriteManifest(folder + "/package.json", WrittenManifest(pkg, m)),
             Shell(ReinitCommand(t.repo)),
             Shell(InstallCommand) ]
      && s.trace[|s.trace| - 1] == Shell(InstallCommand)
  {
    var m := Collect(t, env.args, env.answers);
    LoadedInstallFails(t, m, env, pkg);
    RunAfterLoad(t, env, pkg);
    var folder := FolderPath(env.cwd, m.name);
    var writes := Writes(folder, Patch(env.files, t.replaceFiles, OldName(pkg).value, m.name).written);
    var wm := WriteManifest(folder + "/package.json", WrittenManifest(pkg, m));
    Associate3([Shell(CloneCommand(t.repo, m.name)), RemoveTree(folder + "/.git")], writes,
               [wm, Shell(ReinitCommand(t.repo)), Shell(InstallCommand)]);
  }

  /** The loaded steps when the editor fails to start. */
  lemma LoadedEditorFails(t: Template, m: Meta, env: Environment, pkg: Entries)
    requires match OldName(pkg) case Some(s) => |s| > 0 case None => false
    requires Patch(env.files, t.replaceFiles, OldName(pkg).value, m.name).unreadable == None
    requires env.reinitOk && env.installOk && m.runVsCode && !env.editorOk
    ensures var folder := FolderPath(env.cwd, m.name);
      var p := Patch(env.files, t.replaceFiles, OldName(pkg).value, m.name);
      var r := Perform(LoadedSteps(t, m, env, pkg));
      && !r.completed
      && Actions(r.effects) ==
         Writes(folder, p.written)
         + [WriteManifest(folder + "/package.json", WrittenManifest(pkg, m)), Shell(ReinitCommand(t.repo)), Shell(InstallCommand)]
         + [Shell(EditorCommand(folder))]
      && |r.effects| > 0 && r.effects[|r.effects| - 1] == Shell(EditorCommand(folder))
  {
    var folder := FolderPath(env.cwd, m.name);
    var p := Patch(env.files, t.replaceFiles, OldName(pkg).value, m.name);
    var pre := ReplaceHeader() + ReplaceSteps(folder, p) + ManifestSteps(folder, pkg, m);
    var ri := ShellSteps("Initializing .git folder...", ReinitCommand(t.repo), true);
    var ins := ShellSteps("Installing dependencies, please wait...", InstallCommand, true);
    var x1: seq<Step> := pre + ri;
    var prefix: seq<Step> := x1 + ins;
    var rest := SummarySteps(t, m.name);
    assert LoadedSteps(t, m, env, pkg) == prefix + ShellSteps("Starting vscode...", EditorCommand(folder), false) + rest;
    LoadedPrefix(t, m, env, pkg);
    ShellStepsShape("Initializing .git folder...", ReinitCommand(t.repo));
    ShellStepsShape("Installing dependencies, please wait...", InstallCommand);
    AllOkAppend(pre, ri);
    AllOkAppend(x1, ins);
    StepActionsAppend(pre, ri);
    StepActionsAppend(x1, ins);
    FailAfter(prefix, "Starting vscode...", EditorCommand(folder), rest);
    Flatten3(Writes(folder, p.written), WriteManifest(folder + "/package.json", WrittenManifest(pkg, m)),
             Shell(ReinitCommand(t.repo)), Shell(InstallCommand));
  }

  /** A failing editor start is the run's last action, and the summary is never shown. */
  lemma EditorFails(t: Template, env: Environment, pkg: Entries)
    requires ParsedManifest(env) && Validated(env) && Confirmed(env)
    requires env.cloneOk && env.manifest == Some(pkg)
    requires Patch(env.files, t.replaceFiles, OldName(pkg).value, env.args[0]).unreadable == None
    requires env.reinitOk && env.installOk && |env.args| > 2 && !env.editorOk
    ensures var s := Run(t, env);
      var folder := FolderPath(env.cwd, env.args[0]);
      && s.outcome == Rejected
      && Actions(s.trace) == PlannedActions(t, env, pkg)
      && s.trace[|s.trace| - 1] == Shell(EditorCommand(folder))
  {
    var m := Collect(t, env.args, env.answers);
    LoadedEditorFails(t, m, env, pkg);
    RunAfterLoad(t, env, pkg);
    var folder := FolderPath(env.cwd, m.name);
    var head := [Shell(CloneCommand(t.repo, m.name)), RemoveTree(folder + "/.git")];
    var writes := Writes(folder, Patch(env.files, t.replaceFiles, OldName(pkg).value, m.name).written);
    var middle := [ WriteManifest(folder + "/package.json", WrittenManifest(pkg, m)),
                    Shell(ReinitCommand(t.repo)),
                    Shell(InstallCommand) ];
    Associate(head, writes, middle, [Shell(EditorCommand(folder))]);
  }

  // ---------------------------------------------------------------------
  // The editor flag, the rewritten files and the defaults

  /**
   * On a complete run the editor command is issued exactly when more than
   * one argument follows the project name.
   */
  lemma EditorIff(t: Template, env: Environment, pkg: Entries)
    requires ParsedManifest(env) && Validated(env) && Confirmed(env)
    requires env.manifest == Some(pkg)
    requires env.cloneOk && env.reinitOk && env.installOk && (|env.args| > 2 ==> env.editorOk)
    requires forall i :: 0 <= i < |t.replaceFiles| ==> t.replaceFiles[i] in env.files
    ensures Shell(EditorCommand(FolderPath(env.cwd, env.args[0]))) in Actions(Run(t, env).trace) <==> |env.args| > 2
  {
    SuccessfulRun(t, env, pkg);
    PlannedEditor(t, Collect(t, env.args, env.answers), env, pkg);
  }

  /** The plan holds the editor command exactly when the editor flag is set. */
  lemma PlannedEditor(t: Template, m: Meta, env: Environment, pkg: Entries)
    requires match OldName(pkg) case Some(s) => |s| > 0 case None => false
    ensures Shell(EditorCommand(FolderPath(env.cwd, m.name))) in Plan(t, m, env, pkg) <==> m.runVsCode
  {
    var folder := FolderPath(env.cwd, m.name);
    var editor := Shell(EditorCommand(folder));
    var writes := Writes(folder, Patch(env.files, t.replaceFiles, OldName(pkg).value, m.name).written);
    var head := [Shell(CloneCommand(t.repo, m.name)), RemoveTree(folder + "/.git")];
    var middle := [ WriteManifest(folder + "/package.json", WrittenManifest(pkg, m)),
                    Shell(ReinitCommand(t.repo)),
                    Shell(InstallCommand) ];
    CommandsDiffer(t.repo, m.name, folder);
    assert editor !in head + writes + middle;
  }

  /** In the plan, the clone and the history removal are followed by the file writes. */
  lemma PlannedWrites(t: Template, m: Meta, env: Environment, pkg: Entries)
    requires match OldName(pkg) case Some(s) => |s| > 0 case None => false
    ensures var written := Patch(env.files, t.replaceFiles, OldName(pkg).value, m.name).written;
      var acts := Plan(t, m, env, pkg);
      && |acts| >= |written| + 2
      && acts[2..|written| + 2] == Writes(FolderPath(env.cwd, m.name), written)
  {
    var folder := FolderPath(env.cwd, m.name);
    var writes := Writes(folder, Patch(env.files, t.replaceFiles, OldName(pkg).value, m.name).written);
    var head := [Shell(CloneCommand(t.repo, m.name)), RemoveTree(folder + "/.git")];
    var middle := [ WriteManifest(folder + "/package.json", WrittenManifest(pkg, m)),
                    Shell(ReinitCommand(t.repo)),
                    Shell(InstallCommand) ];
    var last: seq<Effect> := if m.runVsCode then [Shell(EditorCommand(folder))] else [];
    SliceSecond(Plan(t, m, env, pkg), head, writes, middle, last);
  }

  lemma SliceSecond<T>(x: seq<T>, a: seq<T>, b: seq<T>, c: seq<T>, d: seq<T>)
    requires x == a + b + c + d
    ensures |x| >= |a| + |b| && x[|a|..|a| + |b|] == b
  {
    assert x == a + b + (c + d);
  }

  lemma CommandsDiffer(repo: string, name: string, folder: string)
    ensures EditorCommand(folder) != CloneCommand(repo, name)
    ensures EditorCommand(folder) != ReinitCommand(repo)
    ensures EditorCommand(folder) != InstallCommand
  {
    assert EditorCommand(folder)[0] == 'c';
    assert CloneCommand(repo, name)[0] == 'g';
    assert EditorCommand(folder)[|EditorCommand(folder)| - 1] == '.';
    assert ReinitCommand(repo)[|ReinitCommand(repo)| - 1] == '"';
    assert InstallCommand[0] == 'n';
  }

  /** A lone trailing `vscode` argument does not start the editor. */
  lemma SingleVscodeArgumentSkipsEditor(t: Template, env: Environment, pkg: Entries)
    requires ParsedManifest(env) && Validated(env) && Confirmed(env)
    requires env.manifest == Some(pkg) && env.args == [env.args[0], "vscode"]
    requires env.cloneOk && env.reinitOk && env.installOk
    requires forall i :: 0 <= i < |t.replaceFiles| ==> t.replaceFiles[i] in env.files
    ensures Run(t, env).outcome == Returned(0)
    ensures Shell(EditorCommand(FolderPath(env.cwd, env.args[0]))) !in Actions(Run(t, env).trace)
  {
    EditorIff(t, env, pkg);
    SuccessfulRun(t, env, pkg);
  }

  /**
   * On a complete run over distinct configured files, the i-th write puts
   * into the i-th file its cloned text with every occurrence of the
   * manifest's name, as read before the overlay, replaced by the project name.
   */
  lemma FilesRewritten(t: Template, env: Environment, pkg: Entries)
    requires ParsedManifest(env) && Validated(env) && Confirmed(env)
    requires env.manifest == Some(pkg)
    requires env.cloneOk && env.reinitOk && env.installOk && (|env.args| > 2 ==> env.editorOk)
    requires forall i :: 0 <= i < |t.replaceFiles| ==> t.replaceFiles[i] in env.files
    requires forall i, j :: 0 <= i < j < |t.replaceFiles| ==> t.replaceFiles[i] != t.replaceFiles[j]
    ensures var acts := Actions(Run(t, env).trace);
      var folder := FolderPath(env.cwd, env.args[0]);
      && |acts| >= |t.replaceFiles| + 2
      && forall i :: 0 <= i < |t.replaceFiles| ==>
           acts[i + 2] == WriteText(folder + "/" + t.replaceFiles[i],
                                    ReplaceAll(env.files[t.replaceFiles[i]], OldName(pkg).value, env.args[0]))
  {
    SuccessfulRun(t, env, pkg);
    var m := Collect(t, env.args, env.answers);
    assert m.name == env.args[0];
    PlannedFileActions(t, m, env, pkg);
  }

  /** Over distinct readable files, the plan writes each file with the old name replaced. */
  lemma PlannedFileActions(t: Template, m: Meta, env: Environment, pkg: Entries)
    requires match OldName(pkg) case Some(s) => |s| > 0 case None => false
    requires forall i :: 0 <= i < |t.replaceFiles| ==> t.replaceFiles[i] in env.files
    requires forall i, j :: 0 <= i < j < |t.replaceFiles| ==> t.replaceFiles[i] != t.replaceFiles[j]
    ensures var acts := Plan(t, m, env, pkg);
      var folder := FolderPath(env.cwd, m.name);
      && |acts| >= |t.replaceFiles| + 2
      && forall i :: 0 <= i < |t.replaceFiles| ==>
           acts[i + 2] == WriteText(folder + "/" + t.replaceFiles[i],
                                    ReplaceAll(env.files[t.replaceFiles[i]], OldName(pkg).value, m.name))
  {
    var folder := FolderPath(env.cwd, m.name);
    var target := OldName(pkg).value;
    PlannedWrites(t, m, env, pkg);
    FileWrites(env.files, t.replaceFiles, target, folder, m.name);
    var written := Patch(env.files, t.replaceFiles, target, m.name).written;
    SliceIndex(Plan(t, m, env, pkg), 2, Writes(folder, written));
  }

  /** Over distinct readable files, the writes replace the old name file by file. */
  lemma FileWrites(files: map<string, string>, names: seq<string>, target: string, folder: string, name: string)
    requires |target| > 0
    requires forall i :: 0 <= i < |names| ==> names[i] in files
    requires forall i, j :: 0 <= i < j < |names| ==> names[i] != names[j]
    ensures var p := Patch(files, names, target, name);
      && |p.written| == |names|
      && forall i :: 0 <= i < |names| ==>
           Writes(folder, p.written)[i] == WriteText(folder + "/" + names[i], ReplaceAll(files[names[i]], target, name))
  {
    PatchOrder(files, names, target, name);
    PatchAllReadable(files, names, target, name);
    PatchContents(files, names, target, name);
  }

  lemma SliceIndex<T>(x: seq<T>, k: nat, b: seq<T>)
    requires |x| >= k + |b| && x[k..k + |b|] == b
    ensures forall i :: 0 <= i < |b| ==> x[i + k] == b[i]
  {
    forall i | 0 <= i < |b| ensures x[i + k] == b[i] {
      assert x[k..k + |b|][i] == x[i + k];
    }
  }

  /**
   * Each collected field is the answer typed at its prompt, or the default
   * that prompt showed; the visibility is the yes test of its answer, and
   * the editor flag is set by two or more arguments after the name.
   */
  lemma CollectFromPrompts(t: Template, args: seq<string>, answers: seq<string>)
    requires |args| > 0 && |answers| >= 6
    ensures var m := Collect(t, args, answers);
      var qs := Questions(t, args[0], m.author);
      && m.name == args[0]
      && (m.runVsCode <==> |args| >= 3)
      && m.version == Resolve(answers[0], qs[0].default)
      && m.description == Resolve(answers[1], qs[1].default)
      && m.author == Resolve(answers[2], qs[2].default)
      && m.repositoryUrl == Resolve(answers[3], qs[3].default)
      && (m.visibility == "true" <==> IsYes(Resolve(answers[4], qs[4].default)))
      && (m.visibility == "true" || m.visibility == "false")
      && m.license == Resolve(answers[5], qs[5].default)
  {
    IsYesIff(Resolve(answers[4], YesNoDefault));
  }

  /** Empty answers everywhere give the documented defaults. */
  lemma EmptyAnswersGiveDefaults(t: Template, name: string)
    ensures Collect(t, [name], ["", "", "", "", "", ""]) ==
      Meta(name, false, "0.0.0", t.description, "-", "https://github.com/-/" + name + ".git", "true", "ISC")
  {
    IsYesIff(YesNoDefault);
  }

  // ---------------------------------------------------------------------
  // Exit status

  /**
   * The process's exit status as written: the main function's promise is
   * discarded (`void`), so a returned code never reaches the process; only a
   * rejection, through the `unhandledRejection` handler, exits with EBADF.
   */
  function ExitStatus(o: Outcome): (status: int)
    ensures status == 0 || status == EBADF
    ensures status != 0 <==> o == Rejected
  {
    match o
    case Returned(_) => 0
    case Rejected => EBADF
    case Stalled => 0
  }

  /**
   * Every validation failure returns a non-zero code, yet the process status
   * is 0, the status of a successful run.
   */
  lemma ValidationErrorsExitZero(t: Template, env: Environment)
    requires ParsedManifest(env) && !Validated(env)
    ensures Run(t, env).outcome.Returned? && Run(t, env).outcome.code != 0
    ensures ExitStatus(Run(t, env).outcome) == 0
  {
  }

  /** A runtime older than 14: the error is printed, EBADF is returned, and the status is 0. */
  lemma OldRuntimeExitsZero(t: Template, env: Environment)
    requires ParsedManifest(env) && !env.versionOk
    ensures Run(t, env) == Session([Say(VersionError)], Returned(EBADF))
    ensures ExitStatus(Run(t, env).outcome) == 0
  {
  }

  /** The status the returned codes evidently mean: the code itself. */
  function IntendedExitStatus(o: Outcome): int
  {
    match o
    case Returned(code) => code
    case Rejected => EBADF
    case Stalled => 0
  }

  /**
   * With the returned code as the status, a run's status is non-zero exactly
   * when validation fails or a step fails; it is EBADF for an old runtime and
   * EINVAL for a missing name or an existing target.
   */
  lemma IntendedStatusReportsFailures(t: Template, env: Environment)
    requires ParsedManifest(env)
    ensures var status := IntendedExitStatus(Run(t, env).outcome);
      && (status != 0 <==> !Validated(env) || Run(t, env).outcome == Rejected)
      && (!env.versionOk ==> status == EBADF)
      && (env.versionOk && !Validated(env) ==> status == EINVAL)
  {
  }

  // ---------------------------------------------------------------------
  // The shared configuration object

  /** The `conf` object, which the run updates field by field. */
  class Conf {
    var name: string
    var description: string
    var repo: string
    var replaceFiles: seq<string>
    var startMsg: seq<string>
    var doneMsg: seq<string>
    var runVsCode: bool
    var version: string
    var author: string
    var repositoryUrl: string
    var visibility: string
    var license: string

    /** The fields the tool's manifest provides. */
    function Static(): Template
      reads this
    {
      Template(name, description, repo, replaceFiles, startMsg, doneMsg)
    }

    /** The fields the arguments and the prompts set. */
    function Collected(): Meta
      reads this
    {
      Meta(name, runVsCode, version, description, author, repositoryUrl, visibility, license)
    }

    /** `require("./package.json").conf` (create.js:108). */
    constructor (t: Template)
      ensures Static() == t
    {
      name, description, repo := t.name, t.description, t.repo;
      replaceFiles, startMsg, doneMsg := t.replaceFiles, t.startMsg, t.doneMsg;
      runVsCode := false;
      version, author, repositoryUrl, visibility, license := "", "", "", "", "";
    }

    /**
     * The name from the first argument, the editor flag, then the six
     * metadata prompts in order (create.js:119, 128-135). The fields are
     * assigned together from Collect, which keeps the source's order: the
     * author is resolved before the repository default that reads it.
     */
    method Gather(args: seq<string>, answers: seq<string>)
      requires |args| > 0 && |answers| >= 6
      modifies this
      ensures Collected() == Collect(old(Static()), args, answers)
      ensures repo == old(repo) && replaceFiles == old(replaceFiles)
      ensures startMsg == old(startMsg) && doneMsg == old(doneMsg)
    {
      var m := Collect(Static(), args, answers);
      name, runVsCode := m.name, m.runVsCode;
      version, description, author := m.version, m.description, m.author;
      repositoryUrl, visibility, license := m.repositoryUrl, m.visibility, m.license;
    }

    /**
     * `conf.doneMsg.unshift(...)` (create.js:183): the `cd` line goes first,
     * so the printed closing lines are those of the summary.
     */
    method PushCd()
      modifies this
      ensures doneMsg == ["> cd " + name] + old(doneMsg)
      ensures Static() == old(Static()).(doneMsg := doneMsg) && Collected() == old(Collected())
      ensures Summary(old(Static()), name) == [Say("Done."), Say("Commands to run the project:")] + Says(doneMsg)
    {
      doneMsg := ["> cd " + name] + doneMsg;
    }
  }
}
