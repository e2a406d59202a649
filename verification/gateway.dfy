/** The vocabulary every tool shares: how an external process can end, the
    command that was run, and the result dictionary (`status` plus fields)
    each tool hands back to the agent. */
module Gateway {

  datatype Option<T> = None | Some(value: T)

  /** How `subprocess.run` ends for a command without a timeout: the process
      exits with a code and its captured streams, or the call raises locally
      (the program is missing, the working directory does not exist, ...). */
  datatype Outcome =
    | Exited(code: int, stdout: string, stderr: string)
    | Raised(exc: string)

  /** The same for the one command that runs under a timeout. */
  datatype TimedOutcome = Completed(outcome: Outcome) | TimedOut

  /** What is handed to `subprocess.run`: the argument vector, the working
      directory, the text fed to standard input, the timeout in seconds and
      whether standard output and error are captured. */
  datatype Command = Command(
    argv: seq<string>,
    cwd: Option<string>,
    stdin: Option<string>,
    timeoutSeconds: Option<nat>,
    capture: bool)

  /** One record of `gh codespace list --json name,repository,state,createdAt`. */
  datatype CodespaceInfo = CodespaceInfo(name: string, repository: string, state: string, createdAt: string)

  /** What `json.loads` makes of the listing: the records, or the text of the
      exception it raises. */
  datatype Parsed = Decoded(records: seq<CodespaceInfo>) | Malformed(exc: string)

  /** A value stored under a key of a result dictionary. */
  datatype Value = Str(text: string) | Null | Int(n: int) | Records(items: seq<CodespaceInfo>)

  datatype Status = Success | Error

  /** A result dictionary: the `status` key, and every other key with its value. */
  datatype Envelope = Envelope(status: Status, fields: map<string, Value>)

  /** What a tool that does not catch every exception gives its caller: a
      result dictionary, or an exception that propagates. */
  datatype Reply = Returned(envelope: Envelope) | Propagates(exc: string)

  /** `{"status": "error", "error": e}` */
  function Failure(e: Value): (r: Envelope)
    ensures r.status == Error && r.fields.Keys == {"error"} && r.fields["error"] == e
  {
    Envelope(Error, map["error" := e])
  }

  /** The shape every tool keeps: an error carries an `error` key, a success
      never does. */
  predicate WellFormed(r: Envelope) {
    r.status == Error <==> "error" in r.fields
  }

  /** `s if s else fallback` */
  function OrElse(s: string, fallback: string): (r: string)
    ensures fallback != [] ==> r != []
    ensures s != [] ==> r == s
  {
    if s != [] then s else fallback
  }

  /** `s if s else None` */
  function OrNull(s: string): (v: Value)
    ensures v == Null <==> s == []
    ensures s != [] ==> v == Str(s)
  {
    if s != [] then Str(s) else Null
  }

  /** `e.stderr` of a failed command: the captured text, or `None` when the
      command's streams were not captured. */
  function StderrOf(c: Command, stderr: string): (v: Value)
    ensures v == Null <==> !c.capture
    ensures c.capture ==> v == Str(stderr)
  {
    if c.capture then Str(stderr) else Null
  }
}
