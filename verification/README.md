# repo-reviver tool gateway in Dafny

repo-reviver is an agent that revives old repositories. It clones them,
inspects them, edits files, commits and pushes, and can run commands in a
GitHub Codespace. The agent reaches the outside world only through a set of
tool functions. Each tool runs a `gh` or `git` command or touches the local
disk, then turns what happened into a result dictionary. That dictionary has
a `status` of `"success"` or `"error"` plus a few more keys.

This project models those tools:

- `text.dfy` (module `Text`): the Python string operations the tools use.
  These are `strip`, `rstrip`, `split`, `join`, `replace`, `lower`,
  slicing and the substring test. Each comes with the facts the tools need.
- `paths.dfy` (module `Paths`): `os.path.join`, `os.path.dirname`, and the
  chain of directories `os.makedirs` walks through.
- `gateway.dfy` (module `Gateway`): the shared vocabulary.
  - How a process ends: `Outcome`, and `TimedOutcome` when a timeout applies.
  - The command handed to `subprocess.run`.
  - The result dictionary (`Envelope`), and `Reply`, for tools that let
    some exceptions propagate.
- `codespace_tools.dfy` (module `CodespaceTools`): `create_codespace`,
  `run_in_codespace`, `delete_codespace` and `list_codespaces`. Each is a
  function from the process outcome to the dictionary. Every exception is
  caught.
- `git_operations.dfy` (module `GitOperations`):
  - `clone_repo`, `create_branch`, `commit_changes` and `push_branch`.
    These catch only a non-zero exit of `git`, so any other exception
    propagates.
  - `read_file` and `write_file`, as methods of a `FileSystem` class. The
    class holds a path-to-content map and a set of directories. Its
    invariant is that no path is both a file and a directory, and that every
    directory on the way to a file or directory exists. The methods
    are proved against functions on a `Tree` snapshot, and the properties
    of the write (which parent directories it creates, and reading back
    what was written, with text-mode newline translation) are lemmas about
    those functions.
- `tools.dfy` (module `Tools`): `analyze_repo_structure`, as loops proved
  against a listing function. Also `search_web` and
  `generate_deployment_config`.

Two behaviours of the code, modelled as written:

- `clone_repo` removes `.git` wherever it occurs in the last URL piece, not
  only at its end. So `https://github.com/octo/octo.github.io` is cloned to
  `/tmp/repo-reviver/octohub.io`
  (`GitOperations.DefaultCloneDirDropsInnerGit`).
- `analyze_repo_structure` skips a directory when its path contains `.git`
  anywhere, including in the working copy's own path. A working copy at
  such a path lists no files at all (`Tools.GitInRepoPathListsNothing`).

## Model

| member | source | states |
|---|---|---|
| Gateway.Failure | app/codespace_tools.py:31-32 | an error dictionary has exactly the `error` key, holding the given value |
| Gateway.OrElse | app/codespace_tools.py:72 | `s if s else fallback`: a non-empty text is kept, and with a non-empty fallback the result is never empty |
| Gateway.OrNull | app/codespace_tools.py:65 | `s if s else None`: `None` exactly for the empty text |
| Gateway.StderrOf | app/git_operations.py:57 | the `stderr` of a failed command is `None` exactly when its output was not captured |
| CodespaceTools.NormalizeRepoRef | app/codespace_tools.py:16-19 | a non-`http` reference is unchanged; an `http` one becomes a tail of the slash-stripped URL with at most one `/` |
| CodespaceTools.CreateTargetsOwnerRepo | app/codespace_tools.py:17-19 | `<http...>/<owner>/<repo>`, with or without trailing slashes, is passed to `-R` as `owner/repo` |
| CodespaceTools.CreateCommand | app/codespace_tools.py:21-26 | the whole argv: `gh codespace create -R <normalised reference> -m basicLinux32gb --retention-period 1h`, output captured, no standard input and no timeout |
| CodespaceTools.CodespaceName | app/codespace_tools.py:29 | the name is the first line of the stripped output; `None` exactly for empty output, and the empty name exactly when the output is only whitespace |
| CodespaceTools.CreateCodespace | app/codespace_tools.py:15-42 | success exactly on a zero exit with a non-blank output, naming the codespace in the name and message; blank output gives the fixed "Failed to extract" error; a non-zero exit gives stderr verbatim; other exceptions give their text |
| CodespaceTools.NameFromOutput | app/codespace_tools.py:29 | for a non-empty `name` with no newline and no whitespace at either end, followed by `rest` made of whitespace only, stripping the output `name + rest` and taking its first line gives back exactly `name` |
| CodespaceTools.CreatedNameFromOutput | app/codespace_tools.py:29-38 | output `name + rest` (`name` trimmed, no newline, `rest` whitespace) yields success with exactly `name` |
| CodespaceTools.CreatedNameExample | app/codespace_tools.py:29-38 | the output `"cheerful-otter-xyz123\n"` names the codespace `cheerful-otter-xyz123` |
| CodespaceTools.SshCommand | app/codespace_tools.py:57-60 | the commands go on standard input, with a 300-second timeout |
| CodespaceTools.RunInCodespace | app/codespace_tools.py:45-76 | a zero exit gives output plus stderr-or-None; a timeout gives the fixed text; a non-zero exit gives stderr or "Command failed", plus output-or-None; other exceptions give their text; only a non-zero exit carries `output` beside its error |
| CodespaceTools.DeleteCommand | app/codespace_tools.py:89-93 | `gh codespace delete -c <name> --force` |
| CodespaceTools.DeleteCodespace | app/codespace_tools.py:79-102 | success exactly on a zero exit, with "Deleted codespace: <name>"; a non-zero exit gives stderr or "Deletion failed", never an empty error |
| CodespaceTools.ListCommand | app/codespace_tools.py:112-115 | the listing asks for the fields name, repository, state and createdAt |
| CodespaceTools.ListCodespaces | app/codespace_tools.py:105-126 | success exactly when the exit is zero and the output decodes; the records come back unchanged with `count` equal to their number; a decoding failure, a non-zero exit ("Failed to list codespaces" fallback) and other exceptions are errors |
| GitOperations.DefaultCloneDir | app/git_operations.py:16-18 | the default clone directory is a direct child of `/tmp/repo-reviver/` |
| GitOperations.CloneTarget | app/git_operations.py:16-18 | an explicit target directory is used unchanged |
| GitOperations.DefaultCloneDirOfName | app/git_operations.py:17-18 | a URL whose last piece is `name`, followed by any trailing slashes, is cloned to the root plus `name` with `.git` removed |
| GitOperations.DefaultCloneDirOfGitUrl | app/git_operations.py:17-18 | `.../<name>.git`, where `name` has no `/` and no other `.git`, is cloned to `/tmp/repo-reviver/<name>`, with or without trailing slashes |
| GitOperations.DefaultCloneDirOfPlainUrl | app/git_operations.py:17-18 | `.../<name>` (no `.git` in it), with or without trailing slashes, is cloned to `/tmp/repo-reviver/<name>` |
| GitOperations.DefaultCloneDirDropsInnerGit | app/git_operations.py:17-18 | a `.git` inside the name is removed too: for `head` without `.` or `/` and a non-empty `tail` without `/` or `.git`, `.../<head>.git<tail>`, with or without trailing slashes, is cloned to `<head><tail>` |
| GitOperations.RemoveInnerGit | app/git_operations.py:17 | `replace('.git', '')` on `<head>.git<tail>` gives `<head><tail>` when `head` has no `.` and `tail` has no `.git` |
| GitOperations.CloneCommand | app/git_operations.py:22-27 | `git clone <url> <dir>`, with output captured |
| GitOperations.CloneResult | app/git_operations.py:22-38 | a zero exit returns the path and "Successfully cloned to <dir>"; a non-zero exit returns stderr; any other exception propagates |
| GitOperations.CheckoutCommand | app/git_operations.py:43-49 | `git checkout -b <branch>` in the working copy |
| GitOperations.CreateBranch | app/git_operations.py:40-52 | a zero exit echoes the branch; a non-zero exit returns stderr verbatim; other exceptions propagate |
| GitOperations.AddCommand | app/git_operations.py:57 | `git add .` runs in the working copy without capturing its output |
| GitOperations.CommitCommand | app/git_operations.py:58-64 | `git commit -m <message>`, with output captured |
| GitOperations.CommitChanges | app/git_operations.py:54-67 | success (echoing the message) exactly when both steps exit with zero; a failed `add` reports `None` whatever the commit would do; a failed commit reports its stderr; other exceptions propagate |
| GitOperations.PushCommand | app/git_operations.py:72-78 | `git push origin <branch>` in the working copy |
| GitOperations.PushBranch | app/git_operations.py:69-85 | a zero exit returns the branch and the process output; a non-zero exit returns stderr; other exceptions propagate |
| GitOperations.FaultText | app/git_operations.py:95-96 | the text of an `OSError` is never empty |
| GitOperations.MakeChain | app/git_operations.py:102 | `os.makedirs(exist_ok=True)` never changes a file; it succeeds exactly when no directory on the chain is a file, and then adds exactly the chain; it keeps files and directories apart |
| GitOperations.MakeDirsAt | app/git_operations.py:102 | `os.makedirs('')` fails with "No such file or directory" and changes nothing |
| GitOperations.TranslateNewlines | app/git_operations.py:92-93 | text-mode reading leaves no `\r`: `\r\n` and a lone `\r` become `\n`, so the text never grows |
| GitOperations.TranslateKeeps | app/git_operations.py:92-93 | text without `\r` is read back unchanged |
| GitOperations.TranslateAfter | app/git_operations.py:92-93 | a `\r`-free front is kept and the rest is translated on its own |
| GitOperations.TranslateCrLf | app/git_operations.py:92-93 | a `\r\n` line ending is read as one `\n` |
| GitOperations.TranslateLoneCr | app/git_operations.py:92-93 | a `\r` not followed by `\n` is read as `\n` |
| GitOperations.TranslateCrFirst | app/git_operations.py:92-93 | a leading `\r` not followed by `\n` becomes `\n` |
| GitOperations.ReadAt | app/git_operations.py:91-93 | reading finds content exactly when the path is a file, and then it is that file's content with its line endings translated; a directory gives "Is a directory" |
| GitOperations.WriteAt | app/git_operations.py:101-104 | the parents are made first and are never removed again; a successful write sets exactly this file to the content and leaves its directory in place; a failed one changes no file |
| GitOperations.MakeChainKeepsAncestors | app/git_operations.py:102 | walking a chain whose directories come after the ones they lie in keeps every directory on the way to a file or directory in existence |
| GitOperations.DirChainOrdered | app/git_operations.py:102 | the chain `makedirs` walks lists each directory after every directory it lies in |
| GitOperations.AncestorEarlierInChain | app/git_operations.py:102 | a directory on the way to a member of the chain comes before that member |
| GitOperations.MakeDirsAtKeepsAncestors | app/git_operations.py:102 | `os.makedirs` keeps every directory on the way to a file or directory in existence |
| GitOperations.WriteEnvelope | app/git_operations.py:98-107 | success exactly without a fault, returning the relative path as given; otherwise the error text |
| GitOperations.ReadEnvelope | app/git_operations.py:87-96 | success exactly when the file was found, with its content; otherwise the error text |
| GitOperations.WriteSucceedsIff | app/git_operations.py:101-104 | a write succeeds exactly when the directory part is not empty, no directory on the way is a file, and the path is neither a directory (before or after the parents are made) nor ends in `/` |
| GitOperations.WriteEffect | app/git_operations.py:101-105 | after a successful write the parent directory exists, the file holds the content, no other file changed, and only directories on the way were added |
| GitOperations.WriteFailureKeepsFiles | app/git_operations.py:102-107 | a failed write changes no file and adds no directory off the way |
| GitOperations.WriteKeepsDisjoint | app/git_operations.py:101-104 | writing keeps every path either a file or a directory, never both |
| GitOperations.ReadAfterWrite | app/git_operations.py:91-94 | reading a successfully written path gives back the written content with its line endings translated, and exactly the written content when it holds no `\r` |
| GitOperations.WriteKeepsAncestors | app/git_operations.py:101-104 | writing keeps every directory on the way to a file or directory in existence |
| GitOperations.AddFileKeepsAncestors | app/git_operations.py:103-104 | a file whose directories on the way all exist can be added without breaking that |
| GitOperations.DirectoryOfFileIsNotAFile | app/git_operations.py:91-104 | in a tree whose files lie in existing directories, a directory that holds a file cannot be written (no file changes) and reads as "Is a directory" |
| GitOperations.WriteIntoNewSubdirectory | app/git_operations.py:101-105 | for a non-empty working-copy path not ending in `/`, and non-empty `sub` and `name` without `/`: writing `<sub>/<name>` succeeds when no directory on the way to `<repo>/<sub>` is a file and `<repo>/<sub>/<name>` is not a directory, and `<repo>/<sub>` exists afterwards |
| GitOperations.FileSystem.MakeDirs | app/git_operations.py:102 | the new state and fault are those of `MakeDirsAt`, and files stay apart from directories, each lying in existing directories |
| GitOperations.FileSystem.MakeChainIn | app/git_operations.py:102 | one directory at a time, the new state and fault are those of `MakeChain` |
| GitOperations.FileSystem.CloneRepo | app/git_operations.py:5-38 | the parent of the target is made first, and a failure there propagates; this includes a bare target name, whose parent is the empty path; otherwise the result is that of the clone outcome |
| GitOperations.FileSystem.WriteFile | app/git_operations.py:98-107 | the new state and result are those of `WriteAt` on the joined path; after a success, `read_file` on the same arguments returns the content with its line endings translated, and the content itself when it holds no `\r` |
| GitOperations.FileSystem.ReadFile | app/git_operations.py:87-96 | success exactly when the joined path is a file, returning its content with line endings translated; otherwise the error text |
| Paths.PathJoinShape | app/git_operations.py:91 | `os.path.join(a, b)` ends with `b`, and starts with `a` unless `b` is absolute, in which case it is `b` |
| Paths.Dirname | app/git_operations.py:102 | the dirname is a prefix of the path, and empty when there is no `/` |
| Paths.DirnameOfJoin | app/git_operations.py:101-102 | the dirname of `join(dir, name)` is `dir` |
| Paths.DirChain | app/git_operations.py:102 | the directories `makedirs` ensures: none for the empty path, otherwise exactly the directories on the way to it (every prefix that ends where a run of `/` starts), shallowest first, then the path itself |
| Paths.PrefixesFrom | app/git_operations.py:102 | from a position on, exactly the prefixes that end where a run of `/` starts, in increasing length |
| Paths.DirChainOfDirname | app/git_operations.py:101-102 | every directory on the way to a path is in the chain of its dirname |
| Tools.JoinedMember | app/tools.py:16-18 | a path is among a directory's joined names exactly when some file name joins to it |
| Tools.Kept | app/tools.py:15-18 | a directory whose path contains `.git` contributes nothing; otherwise each of its file names joined to its path, in order |
| Tools.Listing | app/tools.py:14-18 | the listing is empty exactly when every visited directory is skipped for `.git` or has no files |
| Tools.ListingMember | app/tools.py:15-18 | a path is listed exactly when it joins a file name to a visited directory whose path does not contain `.git` |
| Tools.GitInRepoPathListsNothing | app/tools.py:15-18 | when the working copy's own path contains `.git`, nothing is listed |
| Tools.Detected | app/tools.py:22-25 | no more names than looked up, and every reported name's path exists |
| Tools.DetectedMember | app/tools.py:21-25 | a key file is reported exactly when its path under the working copy exists |
| Tools.DetectedInOrder | app/tools.py:21-25 | reported key files keep the order of the key-file list |
| Tools.ListRepr | app/tools.py:27 | the list is rendered between `[` and `]`, is `[]` exactly when empty, and shows every item in single quotes |
| Tools.QuotedListShows | app/tools.py:27 | the bracketed, comma-joined quoted items show every item, and are `[]` exactly for no items |
| Tools.Report | app/tools.py:27 | the report opens with "Files found (truncated): [" and shows every shown file in quotes and every detected key file |
| Tools.ReportShows | app/tools.py:27 | the report text shows whatever its file listing shows, and every key file |
| Tools.ShownPrefix | app/tools.py:27 | at most the first twenty listed files are shown, in order, and all of them when there are no more |
| Tools.CollectDirectory | app/tools.py:16-18 | the inner loop appends exactly one directory's kept files |
| Tools.CollectFiles | app/tools.py:14-18 | the walk loop builds exactly the listing |
| Tools.DetectFiles | app/tools.py:22-25 | the key-file loop builds exactly the detected names |
| Tools.AnalyzeRepoStructure | app/tools.py:5-27 | the report shows the first twenty listed files and the detected key files, comma-separated |
| Tools.SearchWeb | app/tools.py:31-35 | the answer starts with "Simulated search results for: " and the query, and ends with the query and "..." |
| Tools.SearchWebRecoversQuery | app/tools.py:35 | different queries give different answers |
| Tools.GenerateDeploymentConfig | app/tools.py:37-56 | the unknown-platform text is returned exactly when the lower-cased platform is none of "cloud run", "github pages" and "defang"; each known platform gets its template, with the app name as the `gcloud run deploy` argument |
| Tools.PlatformCaseInsensitive | app/tools.py:39-50 | platform names that differ only in letter case give the same output |
| Tools.CloudRunCapitalised | app/tools.py:39-43 | "Cloud Run" selects the Cloud Run template |
| Tools.ConfigIgnoresAppName | app/tools.py:44-56 | except for Cloud Run, the output does not depend on the app name |
| Tools.CloudRunRecoversAppName | app/tools.py:40-43 | the Cloud Run output determines the app name it deploys |

## Left out

- Running processes: `gh` and `git` are not executed. A command's effect is
  an `Outcome` input: exit code, stdout, stderr, or a raised exception's
  text. For `run_in_codespace` the input is a `TimedOutcome`, which can also
  be a timeout. Timeout enforcement itself is not modelled.
- `json.loads` is a function parameter that either decodes records or fails
  with a message. The JSON grammar is not modelled.
- `os.walk` is an input sequence of directories, each with its file names,
  in the order the walk yields them. `os.path.exists` is an input set of
  existing paths.
- Tools.ListRepr: Python's `repr` escaping is not modelled. Each name is put
  between single quotes as it is, even one that contains a quote or a
  backslash.
- Text.Lower: case folding covers ASCII letters only.
- Writing in text mode is modelled for a POSIX host, where `\n` is written
  as it is. Encoding and decoding are not modelled: contents are strings, so
  the decoding errors of reading a file that is not valid text cannot occur.
- GitOperations.FaultText: the path inside the error text is not
  `repr`-escaped.
- Permission errors, full disks and other I/O failures of `open` are not
  modelled. Only the failures a tree of files and directories determines
  are.
- `os.path` normalisation: `.`, `..`, repeated slashes, and the directory
  the process runs in are not resolved.
- `git clone` leaves the repository's own files and directories behind.
  The model does not add them to the file system: only `makedirs` of the
  parent changes it.
- The `except` in `analyze_repo_structure` (app/tools.py:28-29) cannot be
  reached in this model. Walking, existence checks and string formatting
  raise nothing here, so the model never returns "Error analyzing repo".
- Tools.AnalyzeRepoStructure: the default argument `repo_path="."` is not
  carried, because Dafny has no default parameters. A caller passes `"."` to
  get the same behaviour.
- Tools.CollectFiles, Tools.CollectDirectory and Tools.DetectFiles are the
  loops of `analyze_repo_structure`, written as methods of their own. The
  source has them inline in one function.
- `app/agent.py` (agent wiring, environment reads, authentication),
  `app/instructions.py` (prompt text) and the test scripts are not part of
  this model.
