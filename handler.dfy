/**
 * The CallTool handler of the image-converter server, for its one tool,
 * convert_format. The steps, in order:
 * - a request without arguments is refused;
 * - any other tool name is refused;
 * - the arguments are validated;
 * - both paths are resolved against "/workspace" and must pass the prefix guard;
 * - the ImageMagick command is built;
 * - the process outcome becomes a success payload or a failure message.
 * Failures raised after dispatch (validation, the guard, the process) are
 * caught and reworded into the "Failed to convert image." message; the two
 * raised before it keep their own text.
 *
 * The process itself is not run: its outcome is a parameter, and the reply
 * records the command that would be handed to the shell, if any.
 */
module Handler {
  import opened Wrappers
  import opened PosixPath
  import opened Sandbox
  import opened Schema
  import opened Reporting

  const ToolName: string := "convert_format"
  const MissingArguments: string := "Arguments are required for tool call."
  const UnknownToolPrefix: string := "Unknown tool: "
  const PathRejected: string := "Invalid file path: Paths must be within the mounted workspace."

  /** A CallTool request: the tool name and the arguments object, which may be absent. */
  datatype Request = Request(name: string, arguments: Option<map<string, Value>>)

  /** What the external process does when run: completes with its output, or fails with an error. */
  datatype Outcome = Completed(stdout: string, stderr: string) | Failed(error: ErrorInfo)

  /** The handler's reply, and the command it ran on the way (None when it stopped earlier). */
  datatype Reply = Reply(result: Result<Payload, string>, command: Option<string>)

  const CommandHead: string := "convert \""
  const CommandMiddle: string := "\" \""
  const CommandTail: string := "\""

  /** The command line: `convert "<absIn>" "<absOut>"`; the target format takes no part in it. */
  function Command(absIn: string, absOut: string): string
  {
    CommandHead + absIn + CommandMiddle + absOut + CommandTail
  }

  /** A failure raised inside the try block, as the catch block rewords it. */
  function Caught(message: string): Result<Payload, string>
  {
    Failure(FailureMessage(ErrorInfo("", "", message)))
  }

  /** The convert_format case, from the validated arguments on. */
  function Convert(args: map<string, Value>, outcome: Outcome): Reply
  {
    match Parse(args)
    case Failure(issues) => Reply(Caught(ValidationMessage(issues)), None)
    case Success(a) =>
      var absIn := Resolve(Workspace, a.inputPath);
      var absOut := Resolve(Workspace, a.outputPath);
      if !Admits(absIn, absOut) then Reply(Caught(PathRejected), None)
      else
        var command := Command(absIn, absOut);
        match outcome
        case Completed(_, stderr) => Reply(Success(SuccessPayload(a.outputPath, stderr)), Some(command))
        case Failed(e) => Reply(Failure(FailureMessage(e)), Some(command))
  }

  /** The whole handler. */
  function Handle(req: Request, outcome: Outcome): Reply
  {
    if req.arguments.None? then Reply(Failure(MissingArguments), None)
    else if req.name != ToolName then Reply(Failure(UnknownToolPrefix + req.name), None)
    else Convert(req.arguments.value, outcome)
  }

  /** The handler as the server runs it: early exits, path resolution, then the caught-error message. */
  method HandleRequest(req: Request, outcome: Outcome) returns (reply: Reply)
    ensures reply == Handle(req, outcome)
  {
    if req.arguments.None? {
      return Reply(Failure(MissingArguments), None);
    }
    if req.name != ToolName {
      return Reply(Failure(UnknownToolPrefix + req.name), None);
    }
    var caught: ErrorInfo;
    var parsed := Parse(req.arguments.value);
    if parsed.Failure? {
      caught := ErrorInfo("", "", ValidationMessage(parsed.error));
      var msg := BuildFailureMessage(caught);
      return Reply(Failure(msg), None);
    }
    var a := parsed.value;
    assert IsAbsolute(Workspace);
    var absIn := ResolvePath(Workspace, a.inputPath);
    var absOut := ResolvePath(Workspace, a.outputPath);
    if !PassesGuard(absIn) || !PassesGuard(absOut) {
      caught := ErrorInfo("", "", PathRejected);
      var msg := BuildFailureMessage(caught);
      return Reply(Failure(msg), None);
    }
    var command := Command(absIn, absOut);
    match outcome {
      case Completed(_, stderr) =>
        reply := Reply(Success(SuccessPayload(a.outputPath, stderr)), Some(command));
      case Failed(e) =>
        var msg := BuildFailureMessage(e);
        reply := Reply(Failure(msg), Some(command));
    }
  }

  // ---------------------------------------------------------------------------
  // Dispatch

  /** Absent arguments are refused before the tool name is looked at, and nothing runs. */
  lemma MissingArgumentsFirst(req: Request, outcome: Outcome)
    requires req.arguments.None?
    ensures Handle(req, outcome) == Reply(Failure(MissingArguments), None)
  {
  }

  /** Any other tool name is refused with "Unknown tool: " and the name, and nothing runs. */
  lemma UnknownToolRefused(req: Request, outcome: Outcome)
    requires req.arguments.Some? && req.name != ToolName
    ensures Handle(req, outcome).result == Failure(UnknownToolPrefix + req.name)
    ensures Handle(req, outcome).command.None?
  {
  }

  /** Every failure after dispatch starts with "Failed to convert image."; only the two early refusals do not. */
  lemma ConvertFailuresArePrefixed(req: Request, outcome: Outcome)
    requires req.arguments.Some? && req.name == ToolName
    requires Handle(req, outcome).result.Failure?
    ensures FailurePrefix <= Handle(req, outcome).result.error
  {
    var args := req.arguments.value;
    match Parse(args)
    case Failure(issues) =>
      FailureMessageShape(ErrorInfo("", "", ValidationMessage(issues)));
    case Success(a) =>
      if !Admits(Resolve(Workspace, a.inputPath), Resolve(Workspace, a.outputPath)) {
        FailureMessageShape(ErrorInfo("", "", PathRejected));
      } else {
        FailureMessageShape(outcome.error);
      }
  }

  // ---------------------------------------------------------------------------
  // Validation

  /** Arguments that fail validation give the caught message carrying the validation text, and nothing runs. */
  lemma InvalidArgumentsCaught(req: Request, outcome: Outcome)
    requires req.arguments.Some? && req.name == ToolName
    requires Parse(req.arguments.value).Failure?
    ensures Handle(req, outcome).result ==
      Failure(FailurePrefix + ErrorHead + ValidationMessage(Parse(req.arguments.value).error))
    ensures Handle(req, outcome).command.None?
  {
    var issues := Parse(req.arguments.value).error;
    MessageOnly(ValidationMessage(issues));
  }

  /** An empty arguments object is present, so it passes the first check and fails validation instead. */
  lemma EmptyArgumentsReachValidation(req: Request, outcome: Outcome)
    requires req.name == ToolName && req.arguments == Some(map[])
    ensures Handle(req, outcome).result ==
      Failure(FailurePrefix + ErrorHead + ValidationMessage([Issue(InputPath, "Required"), Issue(OutputPath, "Required"), Issue(TargetFormat, "Required")]))
    ensures Handle(req, outcome).command.None?
  {
    NoFieldsAllMissing(map[]);
    InvalidArgumentsCaught(req, outcome);
  }

  // ---------------------------------------------------------------------------
  // The workspace guard

  /** A command runs only for valid arguments whose two resolved paths both pass the guard, and it is built from exactly those paths. */
  lemma CommandOnlyWhenAdmitted(req: Request, outcome: Outcome)
    requires Handle(req, outcome).command.Some?
    ensures req.arguments.Some? && req.name == ToolName && Parse(req.arguments.value).Success?
    ensures PassesGuard(Resolve(Workspace, Parse(req.arguments.value).value.inputPath))
    ensures PassesGuard(Resolve(Workspace, Parse(req.arguments.value).value.outputPath))
    ensures Handle(req, outcome).command.value ==
      Command(Resolve(Workspace, Parse(req.arguments.value).value.inputPath),
              Resolve(Workspace, Parse(req.arguments.value).value.outputPath))
  {
  }

  /** Valid arguments whose paths both pass the guard always reach the process, whatever it then does. */
  lemma AdmittedReachesProcess(args: map<string, Value>, outcome: Outcome)
    requires Parse(args).Success?
    requires Admits(Resolve(Workspace, Parse(args).value.inputPath), Resolve(Workspace, Parse(args).value.outputPath))
    ensures Handle(Request(ToolName, Some(args)), outcome).command.Some?
    ensures Handle(Request(ToolName, Some(args)), outcome).result.Success? <==> outcome.Completed?
  {
  }

  /** When either resolved path fails the guard, the reply is the caught path error and nothing runs. */
  lemma RejectedPathCaught(args: map<string, Value>, outcome: Outcome)
    requires Parse(args).Success?
    requires !Admits(Resolve(Workspace, Parse(args).value.inputPath), Resolve(Workspace, Parse(args).value.outputPath))
    ensures Handle(Request(ToolName, Some(args)), outcome) ==
      Reply(Failure(FailurePrefix + ErrorHead + PathRejected), None)
  {
    MessageOnly(PathRejected);
  }

  /**
   * An input path "../a/b" or "/a/b" whose first name does not start with
   * "workspace" (so "../etc/passwd" and "/etc/passwd") is refused and nothing runs.
   */
  lemma EscapingInputRefused(args: map<string, Value>, outcome: Outcome, a: string, b: string)
    requires IsName(a) && IsName(b) && !("workspace" <= a)
    requires Parse(args).Success?
    requires Parse(args).value.inputPath in {"../" + a + "/" + b, "/" + a + "/" + b}
    ensures Handle(Request(ToolName, Some(args)), outcome) ==
      Reply(Failure(FailurePrefix + ErrorHead + PathRejected), None)
  {
    TwoNameEscape(a, b);
    RejectedPathCaught(args, outcome);
  }

  /**
   * The guard's gap reaches the process: with both paths "../a/b" for a name a
   * that extends "workspace" (such as "workspacex"), the command runs on
   * "/a/b", which lies outside the workspace.
   */
  lemma SiblingReachesProcess(args: map<string, Value>, outcome: Outcome, a: string, b: string)
    requires IsName(a) && IsName(b) && "workspace" <= a && a != "workspace"
    requires Parse(args).Success?
    requires Parse(args).value.inputPath == "../" + a + "/" + b
    requires Parse(args).value.outputPath == "../" + a + "/" + b
    ensures Handle(Request(ToolName, Some(args)), outcome).command == Some(Command("/" + a + "/" + b, "/" + a + "/" + b))
    ensures !IsWithin(Workspace, "/" + a + "/" + b)
  {
    TwoNameEscape(a, b);
    SiblingOutsideButAdmitted(a, b);
  }

  // ---------------------------------------------------------------------------
  // The command and the reply

  /** target_format takes no part in the reply or the command: two requests that differ only there are handled alike. */
  lemma TargetFormatIgnored(args: map<string, Value>, f: string, g: string, outcome: Outcome)
    ensures Handle(Request(ToolName, Some(args[TargetFormat := Str(f)])), outcome) ==
            Handle(Request(ToolName, Some(args[TargetFormat := Str(g)])), outcome)
  {
    var af := args[TargetFormat := Str(f)];
    var ag := args[TargetFormat := Str(g)];
    assert FieldIssues(af, InputPath) == FieldIssues(ag, InputPath);
    assert FieldIssues(af, OutputPath) == FieldIssues(ag, OutputPath);
    assert FieldIssues(af, TargetFormat) == FieldIssues(ag, TargetFormat) == [];
    if Parse(af).Success? {
      assert Parse(af).value.inputPath == Parse(ag).value.inputPath;
      assert Parse(af).value.outputPath == Parse(ag).value.outputPath;
    }
  }

  /** A process that completes gives success whatever its stderr; the payload echoes the relative output path. */
  lemma StderrNeverFails(args: map<string, Value>, stdout: string, stderr: string)
    requires Parse(args).Success?
    requires Admits(Resolve(Workspace, Parse(args).value.inputPath), Resolve(Workspace, Parse(args).value.outputPath))
    ensures Handle(Request(ToolName, Some(args)), Completed(stdout, stderr)).result ==
      Success(SuccessPayload(Parse(args).value.outputPath, stderr))
    ensures ReportedStderr(Handle(Request(ToolName, Some(args)), Completed(stdout, stderr)).result.value) == stderr
  {
    SuccessPayloadRecovers(Parse(args).value.outputPath, stderr);
  }

  /** A failing process gives the failure message built from its error, after the command ran. */
  lemma ProcessFailureReported(args: map<string, Value>, e: ErrorInfo)
    requires Parse(args).Success?
    requires Admits(Resolve(Workspace, Parse(args).value.inputPath), Resolve(Workspace, Parse(args).value.outputPath))
    ensures Handle(Request(ToolName, Some(args)), Failed(e)).result == Failure(FailureMessage(e))
    ensures FailurePrefix <= Handle(Request(ToolName, Some(args)), Failed(e)).result.error
  {
    FailureMessageShape(e);
  }

  /** For an input path free of '"', the command line determines both paths: they can be read back from it. */
  lemma CommandDeterminesPaths(absIn: string, absOut: string, absIn': string, absOut': string)
    requires '"' !in absIn && '"' !in absIn'
    requires Command(absIn, absOut) == Command(absIn', absOut')
    ensures absIn == absIn' && absOut == absOut'
  {
    var c := Command(absIn, absOut);
    var n := |CommandHead|;
    assert c == CommandHead + absIn + CommandMiddle + absOut + CommandTail;
    assert c == CommandHead + absIn' + CommandMiddle + absOut' + CommandTail;
    assert forall i :: n <= i < n + |absIn| ==> c[i] == absIn[i - n];
    assert forall i :: n <= i < n + |absIn'| ==> c[i] == absIn'[i - n];
    assert c[n + |absIn|] == '"' && c[n + |absIn'|] == '"';
    assert |absIn| == |absIn'|;
    assert absIn == c[n..n + |absIn|] == absIn';
    assert absOut == c[n + |absIn| + 3..|c| - 1] == absOut';
  }

  /**
   * With a '"' in a path the quoting breaks down: the input "/w/a\" \"/w/b"
   * with output "/w/c" gives the same command as input "/w/a" with output
   * "/w/b\" \"/w/c", a three-path command line either way.
   */
  lemma QuoteInPathAmbiguous()
    ensures "/w/a\" \"/w/b" != "/w/a"
    ensures Command("/w/a\" \"/w/b", "/w/c") == Command("/w/a", "/w/b\" \"/w/c")
  {
    assert "/w/a\" \"/w/b" == "/w/a" + CommandMiddle + "/w/b";
    assert "/w/b\" \"/w/c" == "/w/b" + CommandMiddle + "/w/c";
  }
}
