/**
 * What the convert_format handler sends back: on success a payload echoing
 * the relative output path, on failure one message that starts with a fixed
 * prefix and appends the Stderr, Stdout and Error clauses of the caught error,
 * each only when its text is non-empty.
 */
module Reporting {
  import opened Wrappers

  const FailurePrefix: string := "Failed to convert image."
  const SuccessPrefix: string := "Image successfully converted to "

  /**
   * The caught error's fields; a field the error does not carry is "", since
   * the handler tests each for truthiness.
   */
  datatype ErrorInfo = ErrorInfo(stderr: string, stdout: string, message: string)

  const StderrHead: string := " Stderr: "
  const StdoutHead: string := " Stdout: "
  const ErrorHead: string := " Error: "

  /** One clause of the failure message: its head then the text, or nothing when the text is empty. */
  function Clause(head: string, text: string): (c: string)
    ensures text == [] ==> c == []
    ensures text != [] ==> head <= c && |c| == |head| + |text| && c[|head|..] == text
  {
    if text == [] then "" else head + text
  }

  /** The failure message: the prefix, then the Stderr, Stdout and Error clauses in that order. */
  function FailureMessage(e: ErrorInfo): string
  {
    FailurePrefix + Clause(StderrHead, e.stderr) + Clause(StdoutHead, e.stdout) + Clause(ErrorHead, e.message)
  }

  /** The catch block's message, built by successive appends to a local. */
  method BuildFailureMessage(e: ErrorInfo) returns (msg: string)
    ensures msg == FailureMessage(e)
  {
    msg := FailurePrefix;
    if e.stderr != "" {
      msg := msg + StderrHead + e.stderr;
    }
    assert msg == FailurePrefix + Clause(StderrHead, e.stderr);
    if e.stdout != "" {
      msg := msg + StdoutHead + e.stdout;
    }
    assert msg == FailurePrefix + Clause(StderrHead, e.stderr) + Clause(StdoutHead, e.stdout);
    if e.message != "" {
      msg := msg + ErrorHead + e.message;
    }
  }

  /** Every failure message starts with the prefix, and is the bare prefix exactly when the error carries no text. */
  lemma FailureMessageShape(e: ErrorInfo)
    ensures FailurePrefix <= FailureMessage(e)
    ensures FailureMessage(e) == FailurePrefix <==> e.stderr == "" && e.stdout == "" && e.message == ""
    ensures |FailureMessage(e)| == |FailurePrefix| + |Clause(StderrHead, e.stderr)| + |Clause(StdoutHead, e.stdout)| + |Clause(ErrorHead, e.message)|
  {
    var rest := Clause(StderrHead, e.stderr) + Clause(StdoutHead, e.stdout) + Clause(ErrorHead, e.message);
    assert FailureMessage(e) == FailurePrefix + rest;
    assert FailureMessage(e)[..|FailurePrefix|] == FailurePrefix;
  }

  /** A non-empty error message is the last clause. */
  lemma FailureMessageEndsWithError(e: ErrorInfo)
    requires e.message != ""
    ensures FailureMessage(e) == FailurePrefix + Clause(StderrHead, e.stderr) + Clause(StdoutHead, e.stdout) + ErrorHead + e.message
  {
  }

  /**
   * An error carrying only a message (a validation error, the path error)
   * surfaces as the prefix, the Error head and that message, which can be read back.
   */
  lemma MessageOnly(msg: string)
    requires msg != ""
    ensures FailureMessage(ErrorInfo("", "", msg)) == FailurePrefix + ErrorHead + msg
    ensures FailureMessage(ErrorInfo("", "", msg))[|FailurePrefix| + |ErrorHead|..] == msg
  {
    assert FailureMessage(ErrorInfo("", "", msg)) == FailurePrefix + (ErrorHead + msg);
  }

  /**
   * The clauses are not delimited, so distinct errors can give the same
   * message: stderr "a Stdout: b" alone reads like stderr "a" and stdout "b".
   */
  lemma FailureMessageAmbiguous()
    ensures ErrorInfo("a Stdout: b", "", "") != ErrorInfo("a", "b", "")
    ensures FailureMessage(ErrorInfo("a Stdout: b", "", "")) == FailureMessage(ErrorInfo("a", "b", ""))
  {
    assert StderrHead + "a Stdout: b" == StderrHead + "a" + StdoutHead + "b";
  }

  /** The success payload, before it is rendered as JSON. */
  datatype Payload = Payload(status: string, outputPath: string, message: string, stderr: Option<string>)

  /** The success payload for the relative output path and the process's stderr (null when empty). */
  function SuccessPayload(outputPath: string, stderr: string): (p: Payload)
    ensures p.status == "success" && p.outputPath == outputPath
    ensures p.message == SuccessPrefix + outputPath
    ensures p.stderr.None? <==> stderr == ""
  {
    Payload("success", outputPath, SuccessPrefix + outputPath, if stderr == "" then None else Some(stderr))
  }

  /** What a reader of the payload takes as the stderr text: null read as empty. */
  function ReportedStderr(p: Payload): string
  {
    match p.stderr
    case None => ""
    case Some(s) => s
  }

  /** The payload keeps the stderr text and the output path: both can be read back from it. */
  lemma SuccessPayloadRecovers(outputPath: string, stderr: string)
    ensures ReportedStderr(SuccessPayload(outputPath, stderr)) == stderr
    ensures SuccessPayload(outputPath, stderr).message[|SuccessPrefix|..] == outputPath
  {
  }
}
