# image-converter: the convert_format tool call

This project models the request handler of the image-converter MCP server for its one
tool, `convert_format`, and proves what that handler promises. A call goes through these steps:

1. A request without an arguments object is refused with "Arguments are required for tool call.".
2. Any tool name other than `convert_format` is refused with "Unknown tool: " and the name.
3. The arguments are validated: `input_path`, `output_path` and `target_format` must all be
   present and be strings. Other keys are ignored.
4. Both paths are resolved against the fixed root `/workspace` with POSIX `path.resolve`. Each
   result must start with the string `/workspace`.
5. The command `convert "<absIn>" "<absOut>"` is built and handed to the shell.
6. A process that completes gives a success payload. It echoes the relative output path, and its
   stderr field is null when the process wrote nothing there.
7. Every failure raised from step 3 on (validation, the path guard, the process) is caught. It is
   re-raised as "Failed to convert image." followed by the " Stderr: ", " Stdout: " and " Error: "
   clauses, each only when its text is non-empty.

Modules, one per file:

- `Wrappers`: `Option` and `Result`.
- `PosixPath`: Node's `path.resolve` for an absolute base. `Split` cuts a path into pieces,
  `Normalize` folds the pieces onto a stack of names (`..` pops and never climbs above `/`;
  `""` and `.` are dropped) and `Render` writes the stack back. The method `NormalizeString` is
  a stack version of Node's character loop (Node keeps the names in one string and pops at the
  last '/'), proved equal to the functions; `ResolvePath`
  joins, normalises and renders.
- `Sandbox`: the guard. The guard as written is a bare string prefix test, `PassesGuard`; the
  containment it is meant to give is `IsWithin` (the root itself, or the root and a separator).
- `Schema`: the three-field object schema, its issues and its message.
- `Reporting`: the failure message (a function, and the method that builds it by successive
  appends) and the success payload.
- `Handler`: dispatch and the whole call. `Handle` is the specification and `HandleRequest` the
  step-by-step handler proved equal to it. The external process is a parameter (`Outcome`), and
  the reply records the command that was run, if any.

Containment proper would require the resolved path to be the root itself or the root followed by
a separator (`IsWithin`). The code (src/image-converter/src/index.ts line 67) tests only that the resolved path starts with
`/workspace`, and the model follows the code. `GuardGap` states the exact difference,
`SiblingPassesGuard` and `Handler.SiblingReachesProcess` show a sibling directory such as
`/workspacex` getting through, and `PlainRelativeStaysWithin` shows that paths without `..`
and not absolute do stay inside.

## Model

| member | source | states |
|---|---|---|
| PosixPath.ResolvePath | src/image-converter/src/index.ts:63-64 | the imperative resolve (join, normalise with a stack, render) returns exactly `Resolve(base, p)` |
| PosixPath.NormalizeString | src/image-converter/src/index.ts:63-64 | the one-pass character loop (a stack version of Node's) gives the stack that normalising the pieces of the path gives |
| PosixPath.ScanNormalizes | src/image-converter/src/index.ts:63-64 | reading the rest of a path one character at a time agrees with splitting it into pieces and normalising them |
| PosixPath.ResolveRelative | src/image-converter/src/index.ts:63-64 | a relative argument (the empty one included) is read after the base's pieces; the trailing separator of the join changes nothing |
| PosixPath.ResolveAbsolute | src/image-converter/src/index.ts:63-64 | an absolute argument replaces the base entirely |
| PosixPath.ResolveIsCanonical | src/image-converter/src/index.ts:63-64 | every resolved path is absolute and is "/" or "/" followed by names only (no "", ".", ".." or separator inside a name) |
| PosixPath.CanonicalIsFixed | src/image-converter/src/index.ts:63-64 | normalising a canonical path gives it back |
| PosixPath.ResolveIdempotent | src/image-converter/src/index.ts:63-64 | resolving a resolved path again changes nothing |
| PosixPath.NormalizeGivesNames | src/image-converter/src/index.ts:63-64 | normalising pieces without separators leaves only proper names on the stack |
| PosixPath.NormalizeAppendNoParent | src/image-converter/src/index.ts:63-64 | pieces with no ".." only push their names onto whatever stack is there |
| PosixPath.GlueSplit | src/image-converter/src/index.ts:63-64 | joining the pieces of a string with '/' gives the string back |
| PosixPath.SplitGlue | src/image-converter/src/index.ts:63-64 | splitting a join of separator-free pieces gives the pieces back |
| PosixPath.SplitAppend | src/image-converter/src/index.ts:63-64 | splitting at one more separator concatenates the pieces of both sides |
| PosixPath.ResolveParentOfSingleName | src/image-converter/src/index.ts:63-64 | below a one-name root, a leading ".." climbs to "/" and the rest is read from there |
| PosixPath.ResolveAbsoluteNoParent | src/image-converter/src/index.ts:63-64 | an absolute argument without ".." resolves to "/" and its own names, whatever the base |
| Sandbox.GuardGap | src/image-converter/src/index.ts:67 | the prefix test admits exactly what is within the workspace plus paths whose next character after "/workspace" is not a separator |
| Sandbox.PlainRelativeStaysWithinRoot | src/image-converter/src/index.ts:63-64 | below any canonical root other than "/", a relative path without ".." resolves within the root |
| Sandbox.PlainRelativeStaysWithin | src/image-converter/src/index.ts:62-67 | a relative path without ".." resolves within "/workspace" and passes the guard |
| Sandbox.EscapeNeedsAbsoluteOrParent | src/image-converter/src/index.ts:62-67 | leaving the workspace takes an absolute argument or a ".." piece |
| Sandbox.GuardOnRendered | src/image-converter/src/index.ts:67 | a path "/" plus names passes the guard exactly when the joined names start with "workspace" |
| Sandbox.TwoNameEscape | src/image-converter/src/index.ts:62-67 | from the workspace, "../a/b" and "/a/b" both resolve to "/a/b", which passes the guard exactly when a starts with "workspace" |
| Sandbox.EscapesAreRefused | src/image-converter/src/index.ts:62-69 | "../etc/passwd" and "/etc/passwd" both resolve to "/etc/passwd", which fails the guard |
| Sandbox.SiblingOutsideButAdmitted | src/image-converter/src/index.ts:67 | "/a/b" for a name a strictly extending "workspace" passes the guard yet is not within the workspace |
| Sandbox.SiblingPassesGuard | src/image-converter/src/index.ts:62-67 | "../workspacex/a" resolves to "/workspacex/a", which passes the guard though it lies outside the workspace |
| Sandbox.DotIsRoot | src/image-converter/src/index.ts:63-64 | "." and "" resolve to a one-name root itself |
| Sandbox.RootItselfAdmitted | src/image-converter/src/index.ts:62-67 | "." and "" resolve to "/workspace", which the guard admits |
| Schema.FieldIssues | src/image-converter/src/index.ts:18-20 | a required string field raises no issue exactly when it holds a string, otherwise one issue naming it |
| Schema.Parse | src/image-converter/src/index.ts:17-21 | validation succeeds exactly when all three fields are strings, and then carries their texts; a failure lists one to three issues |
| Schema.ParseEncode | src/image-converter/src/index.ts:17-21 | validating the arguments object made from some arguments gives those arguments back |
| Schema.ParseIgnoresOtherKeys | src/image-converter/src/index.ts:17-21 | keys other than the three fields have no effect on validation |
| Schema.ParseIssuesNameFields | src/image-converter/src/index.ts:17-21 | a failed validation lists the offending fields in declaration order, and every listed field is one that is not a string |
| Schema.NoFieldsAllMissing | src/image-converter/src/index.ts:17-21 | an object with none of the fields fails with "Required" for each of the three, in order |
| Schema.ValidationMessage | src/image-converter/src/index.ts:59 | the message of a failed validation is non-empty |
| Schema.ValidationMessageStartsWithFirst | src/image-converter/src/index.ts:59 | the message opens with the first offending field's line |
| Reporting.BuildFailureMessage | src/image-converter/src/index.ts:101-110 | the successive appends build exactly the prefix followed by the Stderr, Stdout and Error clauses, each present only when non-empty |
| Reporting.Clause | src/image-converter/src/index.ts:102-110 | a clause is empty for empty text and otherwise is its head followed by the text |
| Reporting.FailureMessageShape | src/image-converter/src/index.ts:101-112 | every failure message starts with "Failed to convert image." and is the bare prefix exactly when stderr, stdout and message are all empty |
| Reporting.FailureMessageEndsWithError | src/image-converter/src/index.ts:108-110 | a non-empty error message is the last clause |
| Reporting.MessageOnly | src/image-converter/src/index.ts:98-112 | an error with only a message surfaces as prefix, " Error: " and that message, which can be read back from the end |
| Reporting.FailureMessageAmbiguous | src/image-converter/src/index.ts:101-110 | the clauses are not delimited: two different errors can give the same message |
| Reporting.SuccessPayload | src/image-converter/src/index.ts:89-94 | the payload has status "success", the relative output path, the message "Image successfully converted to " plus that path, and a null stderr exactly when stderr is empty |
| Reporting.SuccessPayloadRecovers | src/image-converter/src/index.ts:89-94 | the stderr text and the output path can both be read back from the payload |
| Handler.HandleRequest | src/image-converter/src/index.ts:51-119 | the step-by-step handler replies exactly as `Handle` specifies |
| Handler.MissingArgumentsFirst | src/image-converter/src/index.ts:52-54 | absent arguments are refused with "Arguments are required for tool call." whatever the tool name, and nothing runs |
| Handler.UnknownToolRefused | src/image-converter/src/index.ts:116-117 | any other tool name fails with exactly "Unknown tool: " plus the name, and nothing runs |
| Handler.ConvertFailuresArePrefixed | src/image-converter/src/index.ts:58-112 | every failure of a convert_format call with arguments starts with "Failed to convert image." |
| Handler.InvalidArgumentsCaught | src/image-converter/src/index.ts:59-112 | a validation failure surfaces as the prefix, " Error: " and the validation message, and nothing runs |
| Handler.EmptyArgumentsReachValidation | src/image-converter/src/index.ts:52-59 | an empty arguments object passes the first check and fails validation on all three fields |
| Handler.CommandOnlyWhenAdmitted | src/image-converter/src/index.ts:59-76 | a command runs only for valid arguments whose two resolved paths pass the guard, and it is built from exactly those paths |
| Handler.AdmittedReachesProcess | src/image-converter/src/index.ts:59-97 | valid arguments whose paths both pass the guard always reach the process, and the call succeeds exactly when the process completes |
| Handler.RejectedPathCaught | src/image-converter/src/index.ts:67-112 | when either resolved path fails the guard the reply is the prefix, " Error: " and the path message, and nothing runs |
| Handler.EscapingInputRefused | src/image-converter/src/index.ts:62-69 | an input "../a/b" or "/a/b" whose first name does not start with "workspace" is refused and nothing runs |
| Handler.SiblingReachesProcess | src/image-converter/src/index.ts:62-76 | paths "../a/b" with a strictly extending "workspace" reach the process, though "/a/b" is outside the workspace |
| Handler.TargetFormatIgnored | src/image-converter/src/index.ts:17-73 | two calls whose target_format values are both strings and that differ only there get the same reply and run the same command |
| Handler.StderrNeverFails | src/image-converter/src/index.ts:78-97 | a completed process gives success whatever its stderr, with the relative output path, and the stderr text is kept |
| Handler.ProcessFailureReported | src/image-converter/src/index.ts:76-112 | a failing process gives the failure message built from its error, which starts with the prefix |
| Handler.CommandDeterminesPaths | src/image-converter/src/index.ts:73 | when the input path holds no '"', the command line determines both paths |
| Handler.QuoteInPathAmbiguous | src/image-converter/src/index.ts:73 | with a '"' inside a path, two different path pairs give the same command line |

## Left out

- Server construction, the ListTools handler and its JSON schema (src/image-converter/src/index.ts lines 24-48): library glue with no decision in it.
- Running the process (lines 9, 14, 76): this is I/O. The outcome of the process is a parameter, and the model records the command it would run.
- Logging to stderr (lines 74, 79, 83, 99): it has no effect on the reply.
- Starting the server and the stdio transport (lines 122-133): process start-up.
- How a shell splits the command line. The model states the exact string. `CommandDeterminesPaths` and `QuoteInPathAmbiguous` say what the quoting does and does not keep apart. Expansion of `$` and backquotes inside the double quotes is not modelled.
- The fallback of `path.resolve` to the current directory: the base here is always the absolute "/workspace", so it never applies.
- Symbolic links: resolution is lexical, as in the code, and the file system is not consulted.
- The JSON rendering of the payload and the MCP content wrapper (lines 85-97): the payload is modelled as a record with its four fields.
- Schema.ValidationMessage: the validation library's message is a JSON dump of its issues. It is modelled as one line per issue, with the library's per-issue wording ("Required", "Expected string, received <type>"), not the exact JSON text.
- Error objects that are not `Error`s: a caught value's stderr, stdout and message are modelled as strings, with "" for a field it lacks (the code tests each for truthiness, so absent and empty behave alike).
- Arguments that are not an object: the request schema of the server library only admits an object or nothing.
- The other image tools (resize, crop, collage and the rest): they are not part of this model.
