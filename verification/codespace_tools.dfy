/** The four GitHub Codespaces tools: each one runs one `gh codespace`
    command and turns whatever happened into a result dictionary. Every
    exception is caught, so every tool returns an envelope. */
module CodespaceTools {
  import opened Text
  import opened Gateway

  const MachineType := "basicLinux32gb"
  const RetentionPeriod := "1h"
  const RunBudgetSeconds: nat := 300
  const ListFields := "name,repository,state,createdAt"

  const NameNotExtracted := "Failed to extract codespace name from output"
  const RunTimedOut := "Command timed out after 5 minutes"
  const RunFailed := "Command failed"
  const DeletionFailed := "Deletion failed"
  const ListingFailed := "Failed to list codespaces"

  /** A reference that starts with "http" is cut down to its last two
      `/`-separated pieces once trailing slashes are gone; anything else is
      used as it is. The result is a tail of the slash-stripped URL with at
      most one separator in it. */
  function NormalizeRepoRef(repoUrl: string): (ref: string)
    ensures !StartsWith(repoUrl, "http") ==> ref == repoUrl
    ensures StartsWith(repoUrl, "http") ==> EndsWith(RStrip(repoUrl, {'/'}), ref)
    ensures StartsWith(repoUrl, "http") ==> |Split(ref, '/')| <= 2
  {
    if StartsWith(repoUrl, "http") then
      var s := RStrip(repoUrl, {'/'});
      var parts := Split(s, '/');
      var tail := LastN(parts, 2);
      var front := parts[..|parts| - |tail|];
      JoinSplit(s, '/');
      SplitJoin(tail, '/');
      if front != [] then
        JoinConcat(front, tail, "/");
        Join(tail, "/")
      else
        Join(tail, "/")
    else
      repoUrl
  }

  /** `gh codespace create -R <ref> -m basicLinux32gb --retention-period 1h`,
      with no timeout. */
  function CreateCommand(repoUrl: string): (c: Command)
    ensures c.argv == ["gh", "codespace", "create", "-R", NormalizeRepoRef(repoUrl),
                       "-m", MachineType, "--retention-period", RetentionPeriod]
    ensures c.stdin == None && c.timeoutSeconds == None && c.capture
  {
    Command(["gh", "codespace", "create", "-R", NormalizeRepoRef(repoUrl),
             "-m", MachineType, "--retention-period", RetentionPeriod],
            None, None, None, true)
  }

  /** Both a repository URL and the same URL with trailing slashes reach the
      create command as `owner/repo`. */
  lemma {:induction false} CreateTargetsOwnerRepo(host: string, owner: string, repo: string, slashes: string)
    requires StartsWith(host, "http")
    requires '/' !in owner && '/' !in repo && repo != []
    requires forall i :: 0 <= i < |slashes| ==> slashes[i] == '/'
    ensures CreateCommand(host + "/" + owner + "/" + repo + slashes).argv[4] == owner + "/" + repo
  {
    var path := host + "/" + owner + "/" + repo;
    var url := path + slashes;
    assert url[..|host|] == host;
    assert path[|path| - 1] == repo[|repo| - 1];
    RStripExact(path, slashes, {'/'});
    assert path == host + ['/'] + owner + ['/'] + repo;
    LastTwoPieces(host, owner, repo, '/');
    assert StartsWith(url, "http");
    assert Join([owner, repo], "/") == owner + "/" + repo;
    assert NormalizeRepoRef(url) == Join([owner, repo], "/");
  }

  /** `line` is the first line of `s`: a prefix of it with no newline,
      followed by a newline or by nothing. */
  predicate FirstLineOf(line: string, s: string) {
    StartsWith(s, line) && '\n' !in line && (|line| == |s| || s[|line|] == '\n')
  }

  /** `stdout.strip().split('\n')[0] if stdout else None` */
  function CodespaceName(stdout: string): (name: Option<string>)
    ensures stdout == [] <==> name == None
    ensures name.Some? ==> FirstLineOf(name.value, Strip(stdout))
    ensures name.Some? ==> (name.value == [] <==> Strip(stdout) == [])
  {
    if stdout != [] then
      var s := Strip(stdout);
      var line := Split(s, '\n')[0];
      assert '\n' in Whitespace;
      FirstPieceEmpty(s, '\n');
      assert '\n' !in Split(s, '\n')[0];
      assert FirstLineOf(line, s);
      Some(line)
    else None
  }

  /** `create_codespace`: a zero exit with some non-blank output gives the
      first line of the trimmed output as the codespace name; blank output is
      an error with a fixed text; a non-zero exit reports standard error as it
      is, with no fallback; any other exception reports its text. */
  function CreateCodespace(o: Outcome): (r: Envelope)
    ensures WellFormed(r)
    ensures r.status == Success <==> o.Exited? && o.code == 0 && Strip(o.stdout) != []
    ensures r.status == Success ==>
      && "codespace_name" in r.fields && r.fields["codespace_name"].Str?
      && var name := r.fields["codespace_name"].text;
      && name != [] && FirstLineOf(name, Strip(o.stdout))
      && r.fields == map["codespace_name" := Str(name), "message" := Str("Codespace created: " + name)]
    ensures o.Exited? && o.code == 0 && Strip(o.stdout) == [] ==> r == Failure(Str(NameNotExtracted))
    ensures o.Exited? && o.code != 0 ==> r == Failure(Str(o.stderr))
    ensures o.Raised? ==> r == Failure(Str(o.exc))
  {
    match o
    case Exited(code, out, err) =>
      if code != 0 then Failure(Str(err))
      else
        (match CodespaceName(out)
         case None => Failure(Str(NameNotExtracted))
         case Some(name) =>
           if name == [] then Failure(Str(NameNotExtracted))
           else Envelope(Success, map["codespace_name" := Str(name), "message" := Str("Codespace created: " + name)]))
    case Raised(e) => Failure(Str(e))
  }

  /** A name with no whitespace at its ends, printed on its own line and
      followed only by whitespace, is the name read from the output. */
  lemma NameFromOutput(name: string, rest: string)
    requires name != [] && '\n' !in name
    requires name[0] !in Whitespace && name[|name| - 1] !in Whitespace
    requires forall i :: 0 <= i < |rest| ==> rest[i] in Whitespace
    ensures CodespaceName(name + rest) == Some(name)
  {
    StripExact(name, rest);
    SplitNoSep(name, '\n');
  }

  /** Such an output makes the tool report success with exactly that name. */
  lemma CreatedNameFromOutput(name: string, rest: string, err: string)
    requires name != [] && '\n' !in name
    requires name[0] !in Whitespace && name[|name| - 1] !in Whitespace
    requires forall i :: 0 <= i < |rest| ==> rest[i] in Whitespace
    ensures var r := CreateCodespace(Exited(0, name + rest, err));
      r.status == Success && r.fields["codespace_name"] == Str(name)
  {
    NameFromOutput(name, rest);
    var fields := map["codespace_name" := Str(name), "message" := Str("Codespace created: " + name)];
    assert CreateCodespace(Exited(0, name + rest, err)) == Envelope(Success, fields);
  }

  /** The output "cheerful-otter-xyz123\n" names the codespace
      "cheerful-otter-xyz123". The name is a parameter fixed by the
      precondition so that the verifier reasons about it as a string rather
      than unfolding the literal character by character. */
  lemma CreatedNameExample(name: string)
    requires name == "cheerful-otter-xyz123"
    ensures var r := CreateCodespace(Exited(0, name + "\n", ""));
      r.status == Success && r.fields["codespace_name"] == Str("cheerful-otter-xyz123")
  {
    assert name[0] == 'c' && name[|name| - 1] == '3';
    assert '\n' !in name;
    CreatedNameFromOutput(name, "\n", "");
  }

  /** `gh codespace ssh -c <name>` with the command text on standard input
      (never on the command line) and a 300-second budget. */
  function SshCommand(codespaceName: string, commands: string): (c: Command)
    ensures c.argv == ["gh", "codespace", "ssh", "-c", codespaceName]
    ensures c.stdin == Some(commands) && c.timeoutSeconds == Some(RunBudgetSeconds) && c.capture
  {
    Command(["gh", "codespace", "ssh", "-c", codespaceName], None, Some(commands), Some(RunBudgetSeconds), true)
  }

  /** `run_in_codespace`: on a zero exit, the output and the standard error
      (`None` exactly when it is empty); on a timeout, a fixed text; on a
      non-zero exit, standard error or "Command failed", together with the
      output or `None`; any other exception reports its text. Only a non-zero
      exit carries an `output` key next to its error, which tells it apart
      from a timeout. */
  function RunInCodespace(t: TimedOutcome): (r: Envelope)
    ensures WellFormed(r)
    ensures r.status == Success <==> t.Completed? && t.outcome.Exited? && t.outcome.code == 0
    ensures r.status == Success ==>
      r.fields == map["output" := Str(t.outcome.stdout), "stderr" := OrNull(t.outcome.stderr)]
    ensures r.status == Success ==> (r.fields["stderr"] == Null <==> t.outcome.stderr == [])
    ensures t.TimedOut? ==> r == Failure(Str(RunTimedOut))
    ensures t.Completed? && t.outcome.Exited? && t.outcome.code != 0 ==>
      r == Envelope(Error, map["error" := Str(OrElse(t.outcome.stderr, RunFailed)),
                               "output" := OrNull(t.outcome.stdout)])
    ensures t.Completed? && t.outcome.Raised? ==> r == Failure(Str(t.outcome.exc))
    ensures r.status == Error ==> ("output" in r.fields <==> t.Completed? && t.outcome.Exited?)
    ensures r.status == Error && t.Completed? && t.outcome.Exited? ==> r.fields["error"] != Str([])
  {
    match t
    case TimedOut => Failure(Str(RunTimedOut))
    case Completed(Exited(code, out, err)) =>
      if code != 0 then
        Envelope(Error, map["error" := Str(OrElse(err, RunFailed)), "output" := OrNull(out)])
      else
        Envelope(Success, map["output" := Str(out), "stderr" := OrNull(err)])
    case Completed(Raised(e)) => Failure(Str(e))
  }

  /** `gh codespace delete -c <name> --force` */
  function DeleteCommand(codespaceName: string): (c: Command)
    ensures c.argv == ["gh", "codespace", "delete", "-c", codespaceName, "--force"]
    ensures c.stdin == None && c.timeoutSeconds == None && c.capture
  {
    Command(["gh", "codespace", "delete", "-c", codespaceName, "--force"], None, None, None, true)
  }

  /** `delete_codespace`: success exactly on a zero exit, with a message that
      names the codespace; a non-zero exit reports standard error or
      "Deletion failed"; any other exception reports its text. A delete that
      the command line tool refuses (say, of a codespace already gone) is
      never reported as a success. */
  function DeleteCodespace(codespaceName: string, o: Outcome): (r: Envelope)
    ensures WellFormed(r)
    ensures r.status == Success <==> o.Exited? && o.code == 0
    ensures r.status == Success ==> r.fields == map["message" := Str("Deleted codespace: " + codespaceName)]
    ensures o.Exited? && o.code != 0 ==> r == Failure(Str(OrElse(o.stderr, DeletionFailed)))
    ensures o.Exited? && o.code != 0 ==> r.fields["error"] != Str([])
    ensures o.Raised? ==> r == Failure(Str(o.exc))
  {
    match o
    case Exited(code, _, err) =>
      if code != 0 then Failure(Str(OrElse(err, DeletionFailed)))
      else Envelope(Success, map["message" := Str("Deleted codespace: " + codespaceName)])
    case Raised(e) => Failure(Str(e))
  }

  /** `gh codespace list --json name,repository,state,createdAt` */
  function ListCommand(): (c: Command)
    ensures c.argv == ["gh", "codespace", "list", "--json", ListFields]
    ensures c.stdin == None && c.timeoutSeconds == None && c.capture
  {
    Command(["gh", "codespace", "list", "--json", ListFields], None, None, None, true)
  }

  /** `list_codespaces`: on a zero exit the output is decoded; decoded
      records are returned as they are with their number; a decoding failure
      reports the exception text; a non-zero exit reports standard error or
      "Failed to list codespaces"; any other exception reports its text. */
  function ListCodespaces(o: Outcome, decode: string -> Parsed): (r: Envelope)
    ensures WellFormed(r)
    ensures r.status == Success <==> o.Exited? && o.code == 0 && decode(o.stdout).Decoded?
    ensures r.status == Success ==>
      r.fields == map["codespaces" := Records(decode(o.stdout).records),
                      "count" := Int(|decode(o.stdout).records|)]
    ensures r.status == Success ==> r.fields["count"] == Int(|r.fields["codespaces"].items|)
    ensures o.Exited? && o.code == 0 && decode(o.stdout).Malformed? ==> r == Failure(Str(decode(o.stdout).exc))
    ensures o.Exited? && o.code != 0 ==> r == Failure(Str(OrElse(o.stderr, ListingFailed)))
    ensures o.Raised? ==> r == Failure(Str(o.exc))
  {
    match o
    case Exited(code, out, err) =>
      if code != 0 then Failure(Str(OrElse(err, ListingFailed)))
      else
        (match decode(out)
         case Decoded(rs) => Envelope(Success, map["codespaces" := Records(rs), "count" := Int(|rs|)])
         case Malformed(e) => Failure(Str(e)))
    case Raised(e) => Failure(Str(e))
  }
}
