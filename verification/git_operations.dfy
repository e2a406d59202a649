/** The local `git` tools and the file tools over a working copy. Unlike the
    codespace tools, the `git` tools catch only a non-zero exit of `git`:
    any other exception propagates to the caller. The file tools catch every
    exception. */
module GitOperations {
  import opened Text
  import opened Paths
  import opened Gateway

  /** Where clones go when no directory is given. */
  const CloneRoot := "/tmp/repo-reviver/"

  /** The last `/`-separated piece of the URL (trailing slashes ignored) with
      every ".git" that one left-to-right scan finds removed, under the clone
      root. The result is a direct child of the root. */
  function DefaultCloneDir(repoUrl: string): (dir: string)
    ensures StartsWith(dir, CloneRoot)
    ensures '/' !in dir[|CloneRoot|..]
  {
    var parts := Split(RStrip(repoUrl, {'/'}), '/');
    var name := RemoveAll(parts[|parts| - 1], ".git");
    assert (CloneRoot + name)[|CloneRoot|..] == name;
    CloneRoot + name
  }

  /** An explicit target directory is used unchanged. */
  function CloneTarget(repoUrl: string, targetDir: Option<string>): (dir: string)
    ensures targetDir.Some? ==> dir == targetDir.value
    ensures targetDir.None? ==> StartsWith(dir, CloneRoot)
  {
    match targetDir
    case Some(d) => d
    case None => DefaultCloneDir(repoUrl)
  }

  /** A URL whose last piece is a non-empty name, with or without trailing
      slashes, is cloned under that name with ".git" removed from it. */
  lemma DefaultCloneDirOfName(prefix: string, name: string, slashes: string)
    requires name != [] && '/' !in name
    requires forall i :: 0 <= i < |slashes| ==> slashes[i] == '/'
    ensures DefaultCloneDir(prefix + "/" + name + slashes) == CloneRoot + RemoveAll(name, ".git")
  {
    var url := prefix + ['/'] + name;
    assert url == prefix + "/" + name;
    assert url[|url| - 1] == name[|name| - 1];
    RStripExact(url, slashes, {'/'});
    SplitConcat(prefix, name, '/');
    SplitNoSep(name, '/');
    var parts := Split(prefix, '/') + [name];
    assert Split(url, '/') == parts;
    assert parts[|parts| - 1] == name;
  }

  /** A URL ending in `/<name>.git`, with or without trailing slashes, is
      cloned to `/tmp/repo-reviver/<name>`. */
  lemma DefaultCloneDirOfGitUrl(prefix: string, name: string, slashes: string)
    requires '/' !in name && !Contains(name, ".git")
    requires forall i :: 0 <= i < |slashes| ==> slashes[i] == '/'
    ensures DefaultCloneDir(prefix + "/" + (name + ".git") + slashes) == CloneRoot + name
  {
    var last := name + ".git";
    assert '/' !in last by {
      assert forall i :: |name| <= i < |last| ==> last[i] == ".git"[i - |name|];
    }
    DefaultCloneDirOfName(prefix, last, slashes);
    RemoveGitSuffix(name);
  }

  /** A URL ending in `/<name>` (no ".git" in the name), with or without
      trailing slashes, is cloned to `/tmp/repo-reviver/<name>`. */
  lemma DefaultCloneDirOfPlainUrl(prefix: string, name: string, slashes: string)
    requires name != [] && '/' !in name && !Contains(name, ".git")
    requires forall i :: 0 <= i < |slashes| ==> slashes[i] == '/'
    ensures DefaultCloneDir(prefix + "/" + name + slashes) == CloneRoot + name
  {
    DefaultCloneDirOfName(prefix, name, slashes);
    RemoveAllAbsent(name, ".git");
  }

  /** ".git" is removed wherever it occurs, not only at the end: for the
      GitHub Pages repository `octo/octo.github.io` (head "octo", tail
      "hub.io") the clone goes to `/tmp/repo-reviver/octohub.io`. */
  lemma DefaultCloneDirDropsInnerGit(prefix: string, head: string, tail: string, slashes: string)
    requires '.' !in head && '/' !in head
    requires tail != [] && '/' !in tail && !Contains(tail, ".git")
    requires forall i :: 0 <= i < |slashes| ==> slashes[i] == '/'
    ensures DefaultCloneDir(prefix + "/" + (head + ".git" + tail) + slashes) == CloneRoot + (head + tail)
  {
    RemoveInnerGit(head, tail);
    DefaultCloneDirOfName(prefix, head + ".git" + tail, slashes);
  }

  /** `<head>.git<tail>` has no separator when neither part has one, and
      `replace(".git", "")` turns it into `<head><tail>`. */
  lemma RemoveInnerGit(head: string, tail: string)
    requires '.' !in head && '/' !in head
    requires '/' !in tail && !Contains(tail, ".git")
    ensures '/' !in head + ".git" + tail
    ensures RemoveAll(head + ".git" + tail, ".git") == head + tail
  {
    var name := head + ".git" + tail;
    assert forall i :: 0 <= i < |name| ==> name[i] in head || name[i] in ".git" || name[i] in tail;
    var gitTail := ".git" + tail;
    assert name == head + gitTail;
    RemoveAllKeep(head, gitTail, ".git");
    assert gitTail[..4] == ".git" && gitTail[4..] == tail;
    RemoveAllAbsent(tail, ".git");
  }

  /** `git clone <url> <dir>` */
  function CloneCommand(repoUrl: string, dir: string): (c: Command)
    ensures c.argv == ["git", "clone", repoUrl, dir] && c.cwd == None && c.capture
  {
    Command(["git", "clone", repoUrl, dir], None, None, None, true)
  }

  /** What `clone_repo` returns once its directory exists: the target path on
      a zero exit; standard error on a non-zero exit; any other exception of
      `git` propagates. */
  function CloneResult(repoUrl: string, dir: string, o: Outcome): (r: Reply)
    ensures r.Propagates? <==> o.Raised?
    ensures r.Returned? ==> WellFormed(r.envelope)
    ensures o.Exited? && o.code == 0 ==>
      r == Returned(Envelope(Success, map["path" := Str(dir), "message" := Str("Successfully cloned to " + dir)]))
    ensures o.Exited? && o.code != 0 ==> r == Returned(Failure(Str(o.stderr)))
    ensures o.Raised? ==> r == Propagates(o.exc)
  {
    match o
    case Exited(code, _, err) =>
      if code != 0 then Returned(Failure(StderrOf(CloneCommand(repoUrl, dir), err)))
      else Returned(Envelope(Success, map["path" := Str(dir), "message" := Str("Successfully cloned to " + dir)]))
    case Raised(e) => Propagates(e)
  }

  /** `git checkout -b <branch>` in the working copy */
  function CheckoutCommand(repoPath: string, branchName: string): (c: Command)
    ensures c.argv == ["git", "checkout", "-b", branchName] && c.cwd == Some(repoPath) && c.capture
  {
    Command(["git", "checkout", "-b", branchName], Some(repoPath), None, None, true)
  }

  /** `create_branch`: the branch name on a zero exit, standard error as it is
      on a non-zero exit; any other exception propagates. */
  function CreateBranch(repoPath: string, branchName: string, o: Outcome): (r: Reply)
    ensures r.Propagates? <==> o.Raised?
    ensures r.Returned? ==> WellFormed(r.envelope)
    ensures o.Exited? && o.code == 0 ==> r == Returned(Envelope(Success, map["branch" := Str(branchName)]))
    ensures o.Exited? && o.code != 0 ==> r == Returned(Failure(Str(o.stderr)))
    ensures o.Raised? ==> r == Propagates(o.exc)
  {
    match o
    case Exited(code, _, err) =>
      if code != 0 then Returned(Failure(StderrOf(CheckoutCommand(repoPath, branchName), err)))
      else Returned(Envelope(Success, map["branch" := Str(branchName)]))
    case Raised(e) => Propagates(e)
  }

  /** `git add .`, whose output is not captured */
  function AddCommand(repoPath: string): (c: Command)
    ensures c.argv == ["git", "add", "."] && c.cwd == Some(repoPath) && !c.capture
  {
    Command(["git", "add", "."], Some(repoPath), None, None, false)
  }

  /** `git commit -m <message>` */
  function CommitCommand(repoPath: string, message: string): (c: Command)
    ensures c.argv == ["git", "commit", "-m", message] && c.cwd == Some(repoPath) && c.capture
  {
    Command(["git", "commit", "-m", message], Some(repoPath), None, None, true)
  }

  /** `commit_changes`: stage, then commit. Success (echoing the message)
      needs both to exit with zero. A failed staging step stops there and,
      since its output was not captured, reports `None` as the error whatever
      the commit would have done; a failed commit reports its standard error.
      Any other exception of either step propagates. */
  function CommitChanges(repoPath: string, message: string, add: Outcome, commit: Outcome): (r: Reply)
    ensures r.Returned? ==> WellFormed(r.envelope)
    ensures r.Returned? && r.envelope.status == Success <==>
      add.Exited? && add.code == 0 && commit.Exited? && commit.code == 0
    ensures r.Returned? && r.envelope.status == Success ==> r.envelope.fields == map["message" := Str(message)]
    ensures add.Raised? ==> r == Propagates(add.exc)
    ensures add.Exited? && add.code != 0 ==> r == Returned(Failure(Null))
    ensures add.Exited? && add.code == 0 && commit.Exited? && commit.code != 0 ==>
      r == Returned(Failure(Str(commit.stderr)))
    ensures add.Exited? && add.code == 0 && commit.Raised? ==> r == Propagates(commit.exc)
  {
    match add
    case Raised(e) => Propagates(e)
    case Exited(addCode, _, addErr) =>
      if addCode != 0 then Returned(Failure(StderrOf(AddCommand(repoPath), addErr)))
      else
        match commit
        case Raised(e) => Propagates(e)
        case Exited(code, _, err) =>
          if code != 0 then Returned(Failure(StderrOf(CommitCommand(repoPath, message), err)))
          else Returned(Envelope(Success, map["message" := Str(message)]))
  }

  /** `git push origin <branch>` */
  function PushCommand(repoPath: string, branchName: string): (c: Command)
    ensures c.argv == ["git", "push", "origin", branchName] && c.cwd == Some(repoPath) && c.capture
  {
    Command(["git", "push", "origin", branchName], Some(repoPath), None, None, true)
  }

  /** `push_branch`: the branch and the process output on a zero exit,
      standard error on a non-zero exit; any other exception propagates. */
  function PushBranch(repoPath: string, branchName: string, o: Outcome): (r: Reply)
    ensures r.Propagates? <==> o.Raised?
    ensures r.Returned? ==> WellFormed(r.envelope)
    ensures o.Exited? && o.code == 0 ==>
      r == Returned(Envelope(Success, map["branch" := Str(branchName), "output" := Str(o.stdout)]))
    ensures o.Exited? && o.code != 0 ==> r == Returned(Failure(Str(o.stderr)))
    ensures o.Raised? ==> r == Propagates(o.exc)
  {
    match o
    case Exited(code, out, err) =>
      if code != 0 then Returned(Failure(StderrOf(PushCommand(repoPath, branchName), err)))
      else Returned(Envelope(Success, map["branch" := Str(branchName), "output" := Str(out)]))
    case Raised(e) => Propagates(e)
  }

  // ---------------------------------------------------------------------
  // The local file system the file tools and `clone_repo` touch.

  /** The `OSError`s the file tools can meet, with the path they name. */
  datatype Fault =
    | NoSuchFile(path: string)
    | FileExists(path: string)
    | NotADirectory(path: string)
    | IsADirectory(path: string)

  /** `str(e)` of such an error. */
  function FaultText(f: Fault): (s: string)
    ensures s != []
  {
    match f
    case NoSuchFile(p) => "[Errno 2] No such file or directory: '" + p + "'"
    case FileExists(p) => "[Errno 17] File exists: '" + p + "'"
    case NotADirectory(p) => "[Errno 20] Not a directory: '" + p + "'"
    case IsADirectory(p) => "[Errno 21] Is a directory: '" + p + "'"
  }

  /** A snapshot of the file system: file contents by path, and the set of
      directories. */
  datatype Tree = Tree(files: map<string, string>, dirs: set<string>)

  /** No path is both a file and a directory. */
  predicate Disjoint(t: Tree) {
    t.files.Keys !! t.dirs
  }

  /** Every directory on the way to a file or a directory exists. */
  ghost predicate AncestorsExist(t: Tree) {
    && (forall p, j :: p in t.files && SeparatorAt(p, j) ==> p[..j] in t.dirs)
    && (forall p, j :: p in t.dirs && SeparatorAt(p, j) ==> p[..j] in t.dirs)
  }

  /** Each directory of a chain lies in directories that exist already or
      come earlier in the chain. */
  ghost predicate ChainOrdered(t: Tree, chain: seq<string>) {
    forall k, j :: 0 <= k < |chain| && SeparatorAt(chain[k], j) ==>
      chain[k][..j] in t.dirs || chain[k][..j] in chain[..k]
  }

  /** `os.makedirs(..., exist_ok=True)` over a chain of directories,
      shallowest first: a missing directory is created, an existing one is
      kept, and a file in the way stops the walk. A file as the last element
      is reported as existing; a file further up as making its child "not a
      directory". Files never change. */
  function MakeChain(t: Tree, chain: seq<string>): (res: (Tree, Option<Fault>))
    ensures res.0.files == t.files
    ensures res.1 == None <==> forall k :: 0 <= k < |chain| ==> chain[k] !in t.files
    ensures res.1 == None ==> res.0.dirs == t.dirs + (set x | x in chain)
    ensures t.dirs <= res.0.dirs <= t.dirs + (set x | x in chain)
    ensures Disjoint(t) ==> Disjoint(res.0)
    decreases |chain|
  {
    if chain == [] then (t, None)
    else if chain[0] in t.files then
      (t, Some(if |chain| == 1 then FileExists(chain[0]) else NotADirectory(chain[1])))
    else
      var res := MakeChain(Tree(t.files, t.dirs + {chain[0]}), chain[1..]);
      assert (set x | x in chain) == {chain[0]} + (set x | x in chain[1..]);
      res
  }

  /** Walking an ordered chain keeps every directory on the way to a file or
      a directory in existence. */
  lemma {:induction false} MakeChainKeepsAncestors(t: Tree, chain: seq<string>)
    requires AncestorsExist(t) && ChainOrdered(t, chain)
    ensures AncestorsExist(MakeChain(t, chain).0)
    decreases |chain|
  {
    if chain != [] && chain[0] !in t.files {
      var c := chain[0];
      var t1 := Tree(t.files, t.dirs + {c});
      forall j | SeparatorAt(c, j)
        ensures c[..j] in t.dirs
      {
        assert chain[..0] == [];
      }
      assert AncestorsExist(t1);
      forall k, j | 0 <= k < |chain[1..]| && SeparatorAt(chain[1..][k], j)
        ensures chain[1..][k][..j] in t1.dirs || chain[1..][k][..j] in chain[1..][..k]
      {
        assert chain[1..][k] == chain[k + 1];
        assert chain[..k + 1] == [c] + chain[1..][..k];
      }
      MakeChainKeepsAncestors(t1, chain[1..]);
    }
  }

  /** The chain of one directory is ordered: shallower directories first. */
  lemma DirChainOrdered(t: Tree, d: string)
    ensures ChainOrdered(t, DirChain(d))
  {
    var chain := DirChain(d);
    forall k, j | 0 <= k < |chain| && SeparatorAt(chain[k], j)
      ensures chain[k][..j] in chain[..k]
    {
      AncestorEarlierInChain(d, chain, k, j);
    }
  }

  /** A directory on the way to a member of the chain comes before it. */
  lemma AncestorEarlierInChain(d: string, chain: seq<string>, k: nat, j: int)
    requires chain == DirChain(d)
    requires k < |chain| && SeparatorAt(chain[k], j)
    ensures chain[k][..j] in chain[..k]
  {
    var c := chain[k];
    assert StartsWith(d, c);
    assert c[j] == d[j] && c[j - 1] == d[j - 1];
    assert SeparatorAt(d, j);
    assert c[..j] == d[..j];
    var k' :| 0 <= k' < |chain| && chain[k'] == d[..j];
    assert |chain[k']| < |c|;
    assert k' < k;
    assert chain[..k][k'] == chain[k'];
  }

  /** `os.makedirs` keeps every directory on the way to a file or a directory
      in existence. */
  lemma MakeDirsAtKeepsAncestors(t: Tree, d: string)
    requires AncestorsExist(t)
    ensures AncestorsExist(MakeDirsAt(t, d).0)
  {
    if d != [] {
      DirChainOrdered(t, d);
      MakeChainKeepsAncestors(t, DirChain(d));
    }
  }

  /** `os.makedirs(d, exist_ok=True)`; the empty path always fails. */
  function MakeDirsAt(t: Tree, d: string): (res: (Tree, Option<Fault>))
    ensures d == [] ==> res == (t, Some(NoSuchFile([])))
  {
    if d == [] then (t, Some(NoSuchFile([]))) else MakeChain(t, DirChain(d))
  }

  /** The directory part of a full path, then opening it for writing:
      the parent directories are made first (and stay made even if the
      open then fails); a path that is a directory, or ends in `/`, cannot
      be opened as a file; otherwise the content replaces the file's. */
  function WriteAt(t: Tree, full: string, content: string): (res: (Tree, Option<Fault>))
    ensures res.1 == None ==> res.0.files == t.files[full := content]
    ensures res.1 != None ==> res.0.files == t.files
    ensures t.dirs <= res.0.dirs
    ensures res.1 == None ==> Dirname(full) in res.0.dirs
  {
    var made := MakeDirsAt(t, Dirname(full));
    if made.1.Some? then made
    else if full in made.0.dirs || EndsWith(full, "/") then (made.0, Some(IsADirectory(full)))
    else (Tree(made.0.files[full := content], made.0.dirs), None)
  }

  /** What reading a file finds. */
  datatype Read = Found(content: string) | Unreadable(fault: Fault)

  /** Text-mode reading with universal newlines: `\r\n` and a lone `\r`
      both become `\n`. */
  function TranslateNewlines(s: string): (r: string)
    ensures '\r' !in r
    ensures |r| <= |s|
    decreases |s|
  {
    if s == [] then []
    else if s[0] == '\r' then "\n" + TranslateNewlines(if |s| > 1 && s[1] == '\n' then s[2..] else s[1..])
    else [s[0]] + TranslateNewlines(s[1..])
  }

  /** Text without `\r` reads back unchanged. */
  lemma {:induction false} TranslateKeeps(s: string)
    requires '\r' !in s
    ensures TranslateNewlines(s) == s
    decreases |s|
  {
    if s != [] {
      TranslateKeeps(s[1..]);
      assert [s[0]] + s[1..] == s;
    }
  }

  /** A line ending `\r\n` after `\r`-free text reads as `\n`. */
  lemma TranslateCrLf(a: string, b: string)
    requires '\r' !in a
    ensures TranslateNewlines(a + "\r\n" + b) == a + "\n" + TranslateNewlines(b)
  {
    var s := "\r\n" + b;
    assert a + "\r\n" + b == a + s;
    TranslateAfter(a, s);
    assert s[2..] == b;
  }

  /** A lone `\r` after `\r`-free text reads as `\n`. */
  lemma TranslateLoneCr(a: string, b: string)
    requires '\r' !in a
    requires b == [] || b[0] != '\n'
    ensures TranslateNewlines(a + "\r" + b) == a + "\n" + TranslateNewlines(b)
  {
    var s := "\r" + b;
    assert a + "\r" + b == a + s;
    TranslateAfter(a, s);
    TranslateCrFirst(b);
  }

  /** A `\r` not followed by `\n` becomes `\n`. */
  lemma TranslateCrFirst(b: string)
    requires b == [] || b[0] != '\n'
    ensures TranslateNewlines("\r" + b) == "\n" + TranslateNewlines(b)
  {
    var s := "\r" + b;
    assert s[0] == '\r' && s[1..] == b;
    assert |s| > 1 ==> s[1] == b[0];
  }

  /** A `\r`-free front is kept as it is. */
  lemma {:induction false} TranslateAfter(a: string, b: string)
    requires '\r' !in a
    ensures TranslateNewlines(a + b) == a + TranslateNewlines(b)
    decreases |a|
  {
    if a != [] {
      assert (a + b)[0] == a[0] && (a + b)[1..] == a[1..] + b;
      TranslateAfter(a[1..], b);
      assert [a[0]] + (a[1..] + TranslateNewlines(b)) == a + TranslateNewlines(b);
    } else {
      assert a + b == b;
    }
  }

  /** Opening a full path for reading: a file gives its content with line
      endings translated; a directory (also when named with a trailing
      `/`), a path through a file, or a missing path give the matching
      error. */
  function ReadAt(t: Tree, full: string): (res: Read)
    ensures res.Found? <==> full in t.files
    ensures res.Found? ==> res.content == TranslateNewlines(t.files[full])
    ensures full !in t.files && full in t.dirs ==> res == Unreadable(IsADirectory(full))
  {
    if full in t.files then Found(TranslateNewlines(t.files[full]))
    else if full in t.dirs || (EndsWith(full, "/") && Dirname(full) in t.dirs) then Unreadable(IsADirectory(full))
    else if exists q :: q in DirChain(Dirname(full)) && q in t.files then Unreadable(NotADirectory(full))
    else Unreadable(NoSuchFile(full))
  }

  /** `write_file`'s dictionary: the relative path as given on success, the
      error text otherwise. */
  function WriteEnvelope(filePath: string, fault: Option<Fault>): (r: Envelope)
    ensures WellFormed(r)
    ensures r.status == Success <==> fault.None?
    ensures fault.None? ==> r.fields == map["path" := Str(filePath)]
    ensures fault.Some? ==> r == Failure(Str(FaultText(fault.value)))
  {
    match fault
    case None => Envelope(Success, map["path" := Str(filePath)])
    case Some(f) => Failure(Str(FaultText(f)))
  }

  /** `read_file`'s dictionary. */
  function ReadEnvelope(read: Read): (r: Envelope)
    ensures WellFormed(r)
    ensures r.status == Success <==> read.Found?
    ensures read.Found? ==> r.fields == map["content" := Str(read.content)]
    ensures read.Unreadable? ==> r == Failure(Str(FaultText(read.fault)))
  {
    match read
    case Found(c) => Envelope(Success, map["content" := Str(c)])
    case Unreadable(f) => Failure(Str(FaultText(f)))
  }

  /** A write succeeds exactly when the directory part is not empty, no
      directory on the way to it is a file, and the path itself is neither a
      directory (before or after the parents are made) nor ends in `/`. */
  lemma WriteSucceedsIff(t: Tree, full: string, content: string)
    ensures var d := Dirname(full); var chain := DirChain(d);
      WriteAt(t, full, content).1 == None <==>
        && d != []
        && (forall k :: 0 <= k < |chain| ==> chain[k] !in t.files)
        && full !in t.dirs
        && (forall k :: 0 <= k < |chain| ==> chain[k] != full)
        && !EndsWith(full, "/")
  {
    var d := Dirname(full);
    var chain := DirChain(d);
    if d != [] {
      var made := MakeChain(t, chain);
      if made.1 == None {
        assert full in made.0.dirs <==> full in t.dirs || exists k :: 0 <= k < |chain| && chain[k] == full;
      }
    }
  }

  /** After a successful write, every directory on the way exists, the file
      holds the content, no other file changed, and the only new directories
      are those on the way. */
  lemma WriteEffect(t: Tree, full: string, content: string)
    requires WriteAt(t, full, content).1 == None
    ensures var t' := WriteAt(t, full, content).0; var chain := DirChain(Dirname(full));
      && (forall k :: 0 <= k < |chain| ==> chain[k] in t'.dirs)
      && Dirname(full) in t'.dirs
      && t'.files == t.files[full := content]
      && t'.dirs == t.dirs + (set x | x in chain)
  {
    var chain := DirChain(Dirname(full));
    assert Dirname(full) == chain[|chain| - 1];
  }

  /** A failed write leaves every file as it was and makes no directory off
      the way to it. */
  lemma WriteFailureKeepsFiles(t: Tree, full: string, content: string)
    requires WriteAt(t, full, content).1 != None
    ensures var t' := WriteAt(t, full, content).0; var chain := DirChain(Dirname(full));
      t'.files == t.files && t.dirs <= t'.dirs <= t.dirs + (set x | x in chain)
  {
    var made := MakeDirsAt(t, Dirname(full));
    assert WriteAt(t, full, content).0 == made.0;
  }

  /** Writing keeps files and directories apart. */
  lemma WriteKeepsDisjoint(t: Tree, full: string, content: string)
    requires Disjoint(t)
    ensures Disjoint(WriteAt(t, full, content).0)
  {
  }

  /** Round trip: what a successful write put there is what a read finds,
      with its line endings translated; text without `\r` comes back as it
      was written. */
  lemma ReadAfterWrite(t: Tree, full: string, content: string)
    requires WriteAt(t, full, content).1 == None
    ensures ReadAt(WriteAt(t, full, content).0, full) == Found(TranslateNewlines(content))
    ensures '\r' !in content ==> ReadAt(WriteAt(t, full, content).0, full) == Found(content)
  {
    if '\r' !in content {
      TranslateKeeps(content);
    }
  }

  /** Writing keeps every directory on the way to a file or a directory in
      existence. */
  lemma WriteKeepsAncestors(t: Tree, full: string, content: string)
    requires AncestorsExist(t)
    ensures AncestorsExist(WriteAt(t, full, content).0)
  {
    var d := Dirname(full);
    var made := MakeDirsAt(t, d);
    MakeDirsAtKeepsAncestors(t, d);
    if WriteAt(t, full, content).1 == None {
      assert d != [] && made.1 == None;
      DirChainOfDirname(full);
      forall j | SeparatorAt(full, j)
        ensures full[..j] in made.0.dirs
      {
        assert full[..j] in DirChain(d);
      }
      AddFileKeepsAncestors(made.0, full, content);
      assert WriteAt(t, full, content).0 == Tree(made.0.files[full := content], made.0.dirs);
    } else {
      assert WriteAt(t, full, content).0 == made.0;
    }
  }

  /** A file whose every directory on the way exists can be added. */
  lemma AddFileKeepsAncestors(t: Tree, full: string, content: string)
    requires AncestorsExist(t)
    requires forall j :: SeparatorAt(full, j) ==> full[..j] in t.dirs
    ensures AncestorsExist(Tree(t.files[full := content], t.dirs))
  {
  }

  /** A directory that holds a file cannot be written as a file: the write
      fails and no file changes; reading it reports a directory. */
  lemma DirectoryOfFileIsNotAFile(t: Tree, p: string, j: int, content: string)
    requires Disjoint(t) && AncestorsExist(t)
    requires p in t.files && SeparatorAt(p, j)
    ensures WriteAt(t, p[..j], content).1 != None
    ensures WriteAt(t, p[..j], content).0.files == t.files
    ensures ReadAt(t, p[..j]) == Unreadable(IsADirectory(p[..j]))
  {
    var q := p[..j];
    assert q in t.dirs;
    var made := MakeDirsAt(t, Dirname(q));
    assert made.1 == None ==> q in made.0.dirs;
  }

  /** A write may target a sub-directory that does not exist yet: when no
      file lies on the way, the write succeeds and the sub-directory is
      created. */
  lemma WriteIntoNewSubdirectory(t: Tree, repoPath: string, sub: string, name: string, content: string)
    requires repoPath != [] && repoPath[|repoPath| - 1] != '/'
    requires sub != [] && '/' !in sub && name != [] && '/' !in name
    requires var chain := DirChain(repoPath + "/" + sub);
      forall k :: 0 <= k < |chain| ==> chain[k] !in t.files
    requires repoPath + "/" + sub + "/" + name !in t.dirs
    ensures var full := PathJoin(repoPath, sub + "/" + name);
      && full == repoPath + "/" + sub + "/" + name
      && WriteAt(t, full, content).1 == None
      && repoPath + "/" + sub in WriteAt(t, full, content).0.dirs
  {
    var dir := repoPath + "/" + sub;
    var rel := sub + "/" + name;
    assert !StartsWith(rel, "/") by {
      assert rel[0] == sub[0];
      assert sub[0] != '/';
    }
    assert PathJoin(repoPath, rel) == dir + "/" + name;
    assert dir[|dir| - 1] == sub[|sub| - 1];
    DirnameOfJoin(dir, name);
    var full := dir + "/" + name;
    var chain := DirChain(dir);
    forall k | 0 <= k < |chain| ensures chain[k] !in t.files && chain[k] != full {
      assert StartsWith(dir, chain[k]);
    }
    assert !EndsWith(full, "/") by {
      assert full[|full| - 1] == name[|name| - 1];
    }
    WriteSucceedsIff(t, full, content);
    WriteEffect(t, full, content);
  }

  /** One step of the walk through a chain whose first element is not a file. */
  lemma MakeChainStep(t: Tree, chain: seq<string>)
    requires chain != [] && chain[0] !in t.files
    ensures MakeChain(t, chain) == MakeChain(Tree(t.files, t.dirs + {chain[0]}), chain[1..])
  {
  }

  /** The file system of the machine the tools run on. */
  class FileSystem {
    var files: map<string, string>
    var dirs: set<string>

    /** No path is both a file and a directory, and every directory on the
      way to one exists. */
    ghost predicate Valid()
      reads this
    {
      Disjoint(Tree(files, dirs)) && AncestorsExist(Tree(files, dirs))
    }

    function State(): Tree
      reads this
    {
      Tree(files, dirs)
    }

    constructor (files0: map<string, string>, dirs0: set<string>)
      requires Disjoint(Tree(files0, dirs0)) && AncestorsExist(Tree(files0, dirs0))
      ensures Valid() && files == files0 && dirs == dirs0
    {
      files := files0;
      dirs := dirs0;
    }

    /** `os.makedirs(d, exist_ok=True)`: the chain of directories on the way
      to `d`, walked one at a time. */
    method MakeDirs(d: string) returns (fault: Option<Fault>)
      requires Valid()
      modifies this
      ensures Valid()
      ensures (State(), fault) == MakeDirsAt(old(State()), d)
    {
      if d == [] {
        return Some(NoSuchFile([]));
      }
      ghost var t0 := State();
      fault := MakeChainIn(DirChain(d));
      MakeDirsAtKeepsAncestors(t0, d);
    }

    /** The walk of `os.makedirs` through a chain, shallowest first: a missing
      directory is created, an existing one kept, and a file on the way
      stops the walk. */
    method MakeChainIn(chain: seq<string>) returns (fault: Option<Fault>)
      requires files.Keys !! dirs
      modifies this
      ensures files.Keys !! dirs
      ensures (State(), fault) == MakeChain(old(State()), chain)
    {
      ghost var t0 := State();
      var k := 0;
      while k < |chain|
        invariant 0 <= k <= |chain|
        invariant files.Keys !! dirs
        invariant MakeChain(t0, chain) == MakeChain(State(), chain[k..])
      {
        var rest := chain[k..];
        assert rest[0] == chain[k];
        if chain[k] in files {
          assert |rest| == 1 <==> k == |chain| - 1;
          assert |rest| > 1 ==> rest[1] == chain[k + 1];
          return Some(if k == |chain| - 1 then FileExists(chain[k]) else NotADirectory(chain[k + 1]));
        }
        assert rest[1..] == chain[k + 1..];
        MakeChainStep(State(), rest);
        dirs := dirs + {chain[k]};
        k := k + 1;
      }
      fault := None;
    }

    /** `clone_repo`: make the parent of the target directory, then run
      `git clone`. A failure to make the parent propagates, as it is not a
      `git` failure; so does it for a bare target name, whose parent is the
      empty path. */
    method CloneRepo(repoUrl: string, targetDir: Option<string>, o: Outcome) returns (r: Reply)
      requires Valid()
      modifies this
      ensures Valid()
      ensures var dir := CloneTarget(repoUrl, targetDir);
        var made := MakeDirsAt(old(State()), Dirname(dir));
        && State() == made.0
        && r == (if made.1.Some? then Propagates(FaultText(made.1.value)) else CloneResult(repoUrl, dir, o))
      ensures targetDir.Some? && '/' !in targetDir.value ==> r == Propagates(FaultText(NoSuchFile([])))
    {
      var dir := CloneTarget(repoUrl, targetDir);
      var fault := MakeDirs(Dirname(dir));
      if fault.Some? {
        r := Propagates(FaultText(fault.value));
      } else {
        r := CloneResult(repoUrl, dir, o);
      }
    }

    /** `write_file`: the full path is the working copy joined with the
      relative path; on success the relative path is returned, and reading
      it back gives the content. */
    method WriteFile(repoPath: string, filePath: string, content: string) returns (r: Envelope)
      requires Valid()
      modifies this
      ensures Valid()
      ensures var res := WriteAt(old(State()), PathJoin(repoPath, filePath), content);
        State() == res.0 && r == WriteEnvelope(filePath, res.1)
      ensures r.status == Success ==>
        ReadFile(repoPath, filePath) == Envelope(Success, map["content" := Str(TranslateNewlines(content))])
      ensures r.status == Success && '\r' !in content ==>
        ReadFile(repoPath, filePath) == Envelope(Success, map["content" := Str(content)])
    {
      var full := PathJoin(repoPath, filePath);
      ghost var t0 := State();
      ghost var res := WriteAt(t0, full, content);
      WriteKeepsAncestors(t0, full, content);
      var fault := MakeDirs(Dirname(full));
      assert (State(), fault) == MakeDirsAt(t0, Dirname(full));
      if fault.Some? {
        assert res == (State(), fault);
        return Failure(Str(FaultText(fault.value)));
      }
      if full in dirs || EndsWith(full, "/") {
        assert res == (State(), Some(IsADirectory(full)));
        return Failure(Str(FaultText(IsADirectory(full))));
      }
      files := files[full := content];
      assert res == (State(), None);
      r := Envelope(Success, map["path" := Str(filePath)]);
      ReadAfterWrite(t0, full, content);
    }

    /** `read_file`: the content of the file at the joined path, or the text
      of the error that opening it raises. */
    function ReadFile(repoPath: string, filePath: string): (r: Envelope)
      reads this
      ensures WellFormed(r)
      ensures r.status == Success <==> PathJoin(repoPath, filePath) in files
      ensures r.status == Success ==>
        r.fields == map["content" := Str(TranslateNewlines(files[PathJoin(repoPath, filePath)]))]
      ensures r.status == Error ==> r == Failure(Str(FaultText(ReadAt(State(), PathJoin(repoPath, filePath)).fault)))
    {
      ReadEnvelope(ReadAt(State(), PathJoin(repoPath, filePath)))
    }
  }
}
