# create-ts-node-starter: a Dafny model of `create.js`

`create.js` is the `npm init` entry point of a TypeScript/Node project
starter. It checks the runtime version and its arguments, greets the user,
asks seven questions (version, description, author, git repository,
visibility, license, confirmation), and then runs these steps in order:

1. clones the template repository;
2. deletes the clone's `.git` folder (`rmdirRecursive`);
3. replaces the template's package name in the configured files;
4. overlays the collected metadata onto the clone's `package.json`;
5. re-initialises git;
6. installs the dependencies;
7. optionally starts VS Code;
8. prints a summary that starts with a `cd` line.

The model has one module per concern:

| file | module | what it holds |
|---|---|---|
| `wrappers.dfy` | `Wrappers` | `Option` |
| `text.dfy` | `Text` | the yes test (`toLowerCase().startsWith("y")`); the global literal replacement `ReplaceAll`, with `Split`/`Join` as a reference definition, characterised by the round-trip and leftmost-pieces lemmas |
| `answers.dfy` | `Answers` | the prompt default rule `answer \|\| defVal`; the `"true"`/`"false"` visibility flag; the default GitHub URL |
| `manifest.dfy` | `Manifest` | JSON values; objects as insertion-ordered member lists; property assignment `obj[k] = v`; the key loop of line 166 as a function (`Overlay`) and as a loop over a mutable `Document` class |
| `tree.dfy` | `RemoveTree` | a file system of directories, files and symbolic links (as `lstat` sees them), with `rmdirRecursive` as a recursive method over a `FileSystem` class, proved against `Prune` |
| `replace.dfy` | `Replace` | the `forEach` read/replace/write loop as a function (`Patch`) and as a loop over a mutable `ProjectFiles` class |
| `pipeline.dfy` | `Pipeline` | the main async function as `Run`. `Run` maps what a run observes (`Environment`) to a `Session`: the trace of effects (lines printed, prompts, shell commands, tree removal, file and manifest writes) and how the function ends. It returns a code (`Returned`), is rejected by a failing step (`Rejected`), or waits forever on a prompt whose input never comes (`Stalled`). This module also holds the shared `conf` object as the class `Conf` and the process exit status. |

Inputs the program reads from the outside world become fields of `Environment`:

- whether the runtime version is at least 14;
- `process.argv.slice(2)`;
- the working directory;
- whether the target folder exists;
- the lines typed at the prompts;
- the success of each shell command;
- the cloned manifest;
- the texts of the configured files.

Errno values are Linux's: `EBADF` = 9, `EINVAL` = 22.

Behaviour of create.js that the model keeps as written:

- The answers are not trimmed.
- Any number of arguments of one or more is accepted. Extra ones are ignored, except that two or more of them set the editor flag.
- The editor starts only when two or more arguments follow the name (`argv.slice(3).length > 1`), not when there is just one.
- The clone uses the template's `conf.repo`, not the repository URL the user typed.
- `rmdirRecursive` unlinks symbolic links rather than following them.
- Validation failures do not give a non-zero exit status (see Findings).

## Model

| member | source | states |
|---|---|---|
| Text.IsYesIff | create.js:134-138 | the yes test holds exactly when the answer's first character is `y` or `Y` |
| Text.IsYes | create.js:134-138 | the yes test `answer.toLowerCase().startsWith("y")`, with ASCII lower-casing |
| Text.ReplaceAll | create.js:159-160 | `str.replace(new RegExp(name, 'g'), newName)` for a literal name: scanning from the left, each occurrence is replaced and the scan resumes after it |
| Text.ReplaceNoMatch | create.js:159-160 | a text without the old name is returned unchanged |
| Text.ReplaceSelf | create.js:159-160 | replacing a name by itself is the identity |
| Text.ReplaceIsSplitJoin | create.js:159-160 | the replacement equals splitting at the leftmost non-overlapping occurrences and joining with the new name |
| Text.SplitJoinRoundTrip | create.js:159-160 | splitting and joining with the same separator gives the text back |
| Text.SplitPrefix | create.js:159-160 | the text starts with the first piece, followed by the separator when there are more pieces |
| Text.SplitPiecesAreLeftmost | create.js:159-160 | no piece contains the old name, and no occurrence starts inside a piece and runs into the following separator, so the matches are the leftmost non-overlapping ones |
| Answers.Resolve | create.js:76 | the result is the answer when non-empty and the default otherwise, with no trimming; it is empty only when both are |
| Answers.EmptyAnswerIsYes | create.js:133-134 | an empty answer to a yes/no prompt, which takes the default `Y/n`, counts as yes |
| Answers.DefaultRepoUrl | create.js:132 | the default of the "Git repo" prompt, `https://github.com/<author>/<name>.git` |
| Answers.PrivateFlag | create.js:134 | the flag is the string `"true"` or `"false"`, and `"true"` exactly when the answer starts with `y`/`Y` |
| Manifest.Assign | create.js:166 | one property assignment `obj[k] = v` on an insertion-ordered object |
| Manifest.Overlay | create.js:166 | the assignments of a list of updates, in list order |
| Manifest.LookupAssign | create.js:166 | after `obj[k] = v`, reading `k` gives `v` and every other key gives its old value |
| Manifest.AssignShape | create.js:166 | assignment keeps keys distinct; an existing key keeps its position and every other member its position and value; a missing key is appended |
| Manifest.LookupOverlay | create.js:166 | after the key loop, a key reads as its last update, or as before when not updated |
| Manifest.OverlayShape | create.js:166 | after the key loop, old members keep their positions and take their last update; the new keys are appended in first-update order |
| Manifest.UpdateForPairs | create.js:166 | with distinct keys, the update for key `k` is `conf[k]` exactly when `k` is listed |
| Manifest.OverlayFromConf | create.js:166 | assigning `obj[k] = conf[k]` for distinct listed keys: listed keys take the `conf` value, other members keep value and position, missing keys are appended in list order |
| Manifest.Document.constructor | create.js:152 | the loaded object holds exactly the parsed members, in order |
| Manifest.Document.Set | create.js:166 | one assignment `pkg[key] = conf[key]` changes the object as `Assign` says |
| Manifest.Document.OverlayFrom | create.js:166 | the `forEach` over the seven keys leaves the object equal to `Overlay` of the old object |
| RemoveTree.Prune | create.js:22-34 | the entries that remain once a folder and everything below it are removed |
| RemoveTree.PruneAbsent | create.js:23 | removing a path that does not exist changes nothing |
| RemoveTree.PruneKeepsTree | create.js:22-34 | after the removal the entries still form a tree |
| RemoveTree.PruneIdempotent | create.js:22-34 | removing the same folder twice is the same as removing it once |
| RemoveTree.LeafOnly | create.js:26-29 | nothing lies below an entry that is not a directory, so unlinking it removes exactly that entry |
| RemoveTree.ConcatChildrenFirst | create.js:24-32 | removals of a child's subtree followed by later removals still remove children before their directory |
| RemoveTree.FileSystem.RmdirRecursive | create.js:22-34 | an absent folder: success, nothing changes. A regular file: `readdir` fails, nothing changes. A directory: the folder and everything below it are gone, entries outside it are untouched, each entry is removed once, directories by `rmdir` and everything else by `unlink`, children before their directory |
| RemoveTree.FileSystem.RemoveDir | create.js:24-32 | the loop over `readdir` plus the final `rmdir` removes exactly the subtree, children first |
| Replace.Patch | create.js:155-162 | the read/replace/write loop over the configured files: the texts afterwards, the writes in order, and the file whose read failed |
| Replace.PatchOrder | create.js:155-162 | files are handled in list order; the written files are a prefix of the list, and the loop reaches the end or stops at the next file, which cannot be read |
| Replace.PatchAllReadable | create.js:155-162 | when every listed file can be read, the loop writes all of them |
| Replace.PatchUntouched | create.js:155-162 | a file not in the list keeps its text |
| Replace.PatchContents | create.js:158-161 | with each file listed once, the text written to a file is its original text with every occurrence of the old name replaced, and the file ends up holding it |
| Replace.PatchNoMatch | create.js:155-162 | when no file contains the old name, every file is written back unchanged |
| Replace.PatchSelf | create.js:155-162 | replacing a name by itself leaves all files as they were |
| Replace.ProjectFiles.ReplaceInFiles | create.js:155-162 | the loop over the files leaves the files, the writes and the failing file as `Patch` says |
| Pipeline.Run | create.js:102-186 | one run of the main function: what it prints, asks and does, in order, and how it ends (a returned code, a rejection, or waiting on a prompt) |
| Pipeline.Questions | create.js:129-137 | the seven prompts with their defaults, in order; the repository default is built from the collected author |
| Pipeline.Prompted | create.js:127-137 | the prompts shown: all seven, or those up to the first one whose input never comes |
| Pipeline.Collect | create.js:119-135 | the name, the editor flag and the six metadata values that the arguments and answers give |
| Pipeline.CollectFromPrompts | create.js:119-135 | each collected value is the answer typed at its prompt, or the default that prompt showed; the visibility is `"true"` exactly for a yes to its prompt; the editor flag is set by two or more arguments after the name |
| Pipeline.Plan | create.js:142-179 | the actions of a run in which every step succeeds: the clone, the `.git` removal, the file writes, the manifest write, the re-init, `npm i` and, with the editor flag, `code <folder>/.` |
| Pipeline.PerformComplete | create.js:142-184 | the awaited steps complete exactly when each one does, and then every step's effects happen in order |
| Pipeline.PerformStops | create.js:142-184 | after completed steps, a failing step's effects are the last the run has |
| Pipeline.ShellStepsShape | create.js:59-63 | a command that exits 0 prints its announcement, issues just that command, and then the spinner's "OK" |
| Pipeline.FailAfter | create.js:64-66 | a command that fails is the last action, and the run does not complete |
| Pipeline.ValidationFailsFirst | create.js:102-125 | an old runtime (EBADF), a missing name or an existing target (EINVAL) ends the run with one error line, before any prompt, command or file change |
| Pipeline.InputEndsEarly | create.js:127-137 | input that ends before the seventh answer leaves the run waiting, after the greeting lines and the prompts answered so far, at the prompt that follows the last answer, with no command issued |
| Pipeline.PromptOrder | create.js:127-137 | the greeting lines come first, then the seven prompts in fixed order with their defaults; the repository default is `https://github.com/<author>/<name>.git` built from the author answer already collected |
| Pipeline.DeclinedDoesNothing | create.js:137-140 | an answer to "Is the above OK?" that is not a yes returns 0 after the prompts, with no command issued and no file removed or written |
| Pipeline.ConfirmedIff | create.js:137-138 | the run goes on exactly when the confirmation is empty or starts with `y`/`Y` |
| Pipeline.SuccessfulRun | create.js:142-186 | when every command succeeds and every file can be read, the run returns 0. Its actions are exactly, in order: the clone, the removal of `<folder>/.git`, one write per configured file in list order, the manifest write, the git re-init, `npm i`, and `code <folder>/.` only with the editor flag. The trace ends with "Done.", the heading, `> cd <name>` and the configured messages in order |
| Pipeline.ManifestOverlay | create.js:166 | the written manifest sets exactly `name, version, description, author, repository, private, license` to the collected values. Other members keep their value and position; existing overlaid keys keep their position; missing ones are appended in that order |
| Pipeline.CloneFails | create.js:142-143 | a failing clone is the only action, and the run is rejected |
| Pipeline.ManifestMissing | create.js:149-152 | a manifest that does not load rejects the run after the clone and the `.git` removal |
| Pipeline.UnreadableFileStops | create.js:155-162 | an unreadable configured file rejects the run at that file. The files before it have been written; no manifest write and no later command happen; the last line names the file |
| Pipeline.ReinitFails | create.js:170-171 | a failing git re-init is the last action: no install and no editor happen, and no summary is printed |
| Pipeline.InstallFails | create.js:173-174 | a failing `npm i` is the last action: no editor starts and no summary is printed |
| Pipeline.EditorFails | create.js:176-179 | a failing editor start is the last action, and the run is rejected before the summary |
| Pipeline.EditorIff | create.js:176-179 | on a complete run, `code <folder>/.` is issued exactly when the editor flag of line 128 is set, that is when more than one argument follows the name |
| Pipeline.SingleVscodeArgumentSkipsEditor | create.js:128 | `<name> vscode` alone does not start the editor |
| Pipeline.FilesRewritten | create.js:152-162 | on a complete run over distinct files, the i-th write puts into the i-th configured file its text with every occurrence of the manifest name (read before the overlay) replaced by the project name |
| Pipeline.EmptyAnswersGiveDefaults | create.js:129-135 | empty answers give version `0.0.0`, the template description, author `-`, repository `https://github.com/-/<name>.git`, private `"true"` and license `ISC` |
| Pipeline.ExitStatus | create.js:86-112 | as written, the exit status is EBADF when the main function's promise is rejected and 0 in every other case |
| Pipeline.ValidationErrorsExitZero | create.js:103-125 | every validation failure returns a non-zero code, yet the process exits with 0 |
| Pipeline.OldRuntimeExitsZero | create.js:103-106 | on every run under a runtime older than 14, the only effect is the version error and EBADF is returned, yet the exit status is 0 |
| Pipeline.IntendedStatusReportsFailures | create.js:103-125 | with the returned code as the status, the status is non-zero exactly when validation fails or a step fails: EBADF for an old runtime, EINVAL for a missing name or an existing target |
| Pipeline.Conf.constructor | create.js:108 | `conf` starts as the tool's configuration |
| Pipeline.Conf.Gather | create.js:119-135 | after the argument and the six metadata prompts, `conf`'s collected fields are `Collect` of its old fields; the repository, file list and messages are unchanged |
| Pipeline.Conf.PushCd | create.js:183 | `unshift` puts `> cd <name>` before the done messages, which makes the printed lines the summary's |

## Left out

- `runShellCmd` internals (create.js:37-69): the child process, the forwarding of its output, the spinner timer and the event listeners. Each command is only success or failure.
- A command that fails to start and one that exits non-zero are the same failure.
- `prompt`'s terminal I/O (create.js:72-82) is not modelled. An answer is a given line; input that ends is `Stalled`.
- The SIGINT rejection is not modelled.
- Stream encodings and the `uncaughtException`/`unhandledRejection` hooks (create.js:109-112) are not modelled. Only their effect on the exit status is kept, in `ExitStatus`.
- The Node version check (create.js:102-103) parses a float. It is the boolean `versionOk`.
- `require` of JSON, `JSON.stringify` formatting, `process.chdir` and console colours (create.js:17-19, 108, 149-152, 167) are not modelled. The manifest is a member list, or `None` when it does not load.
- JSON numbers are integers in `Json`.
- JavaScript's ordering of integer-like keys first is not modelled.
- `path.join` normalisation: paths are joined with `/`.
- Pipeline.Run: requires the loaded manifest to be a parsed object, so its keys are distinct. Duplicate keys in the package.json text, where `JSON.parse` keeps the last value, are not modelled.
- Pipeline.Run: requires the manifest's name to be a non-empty string with no regular-expression metacharacters, so `new RegExp(pkg.name, 'g')` matches it literally (create.js:159). Other names, such as a missing one, which becomes an empty pattern, are not modelled.
- `$` patterns in the replacement are not modelled: the new name is inserted literally.
- Failures of `writeFileSync`, `afs.writeFile`, `unlink` and `rmdir` are not modelled. Only an unreadable configured file and a missing manifest are failures.
- Pipeline.Run: the `.git` removal is always a directory removal that succeeds. Its behaviour on the file system is `RemoveTree.FileSystem.RmdirRecursive`, on a separate abstraction of the disk. The two are not linked.
- RemoveTree.FileSystem.RmdirRecursive: requires that the folder itself is not a symbolic link. `existsSync` follows such a link, so a top-level `.git` link is not modelled. Links below the folder are modelled and are unlinked.
- The outer `try`/`catch` (create.js:188-190) can catch nothing the async body throws, and it calls a nonexistent `console.critical`. It is left out.
- Replace.PatchContents: a file listed twice is modelled by `Replace.Patch`, but the written contents are proved only for lists without repeats.
- Pipeline.FilesRewritten: the per-file contents are proved only for configured lists without repeats.

## Findings

| source | as written | input that shows it | evidently intended | confidence | as-written member | corrected member |
|---|---|---|---|---|---|---|
| create.js:86-125 | the main function's returned codes (EBADF, EINVAL) are discarded by `void`, so the process exits 0 after a validation error | a runtime older than 14, or no name argument, or an existing target folder | exit with EBADF or EINVAL, as the `return errno.…` lines and the error messages say | not executed | Pipeline.ValidationErrorsExitZero | Pipeline.IntendedStatusReportsFailures |
