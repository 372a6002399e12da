/**
 * The input schema of convert_format: an object with three required string
 * fields. Parsing keeps those three fields, ignores every other key, and on
 * failure reports one issue per offending field, in declaration order, with
 * the wording the schema library uses for a missing value or a value of the
 * wrong type.
 */
module Schema {
  import opened Wrappers

  /** A JSON value as it arrives in the request's arguments object. */
  datatype Value =
    | Str(text: string)
    | Num(n: int)
    | Bool(b: bool)
    | Null
    | Arr(items: seq<Value>)
    | Obj(fields: map<string, Value>)

  /** The arguments once validated. */
  datatype ConvertArgs = ConvertArgs(inputPath: string, outputPath: string, targetFormat: string)

  /** One validation problem: the offending field and the library's message for it. */
  datatype Issue = Issue(field: string, message: string)

  const InputPath: string := "input_path"
  const OutputPath: string := "output_path"
  const TargetFormat: string := "target_format"

  /** The field holds a string. */
  predicate HasString(args: map<string, Value>, field: string)
  {
    field in args && args[field].Str?
  }

  /** The name the schema library gives the type of what it received ("undefined" for a missing key). */
  function ReceivedType(args: map<string, Value>, field: string): string
  {
    if field !in args then "undefined"
    else match args[field]
      case Str(_) => "string"
      case Num(_) => "number"
      case Bool(_) => "boolean"
      case Null => "null"
      case Arr(_) => "array"
      case Obj(_) => "object"
  }

  /** The issues one required string field raises: none, or one naming it. */
  function FieldIssues(args: map<string, Value>, field: string): (issues: seq<Issue>)
    ensures issues == [] <==> HasString(args, field)
    ensures |issues| <= 1
    ensures forall k :: 0 <= k < |issues| ==> issues[k].field == field
  {
    if HasString(args, field) then []
    else if field !in args then [Issue(field, "Required")]
    else [Issue(field, "Expected string, received " + ReceivedType(args, field))]
  }

  /** Validation against the three-field object schema. */
  function Parse(args: map<string, Value>): (r: Result<ConvertArgs, seq<Issue>>)
    ensures r.Success? <==> HasString(args, InputPath) && HasString(args, OutputPath) && HasString(args, TargetFormat)
    ensures r.Success? ==>
      Str(r.value.inputPath) == args[InputPath] &&
      Str(r.value.outputPath) == args[OutputPath] &&
      Str(r.value.targetFormat) == args[TargetFormat]
    ensures r.Failure? ==> 1 <= |r.error| <= 3
  {
    var issues := FieldIssues(args, InputPath) + FieldIssues(args, OutputPath) + FieldIssues(args, TargetFormat);
    if issues == [] then
      Success(ConvertArgs(args[InputPath].text, args[OutputPath].text, args[TargetFormat].text))
    else
      Failure(issues)
  }

  /** The arguments object a well-behaved client sends for some validated arguments. */
  function Encode(a: ConvertArgs): map<string, Value>
  {
    map[InputPath := Str(a.inputPath), OutputPath := Str(a.outputPath), TargetFormat := Str(a.targetFormat)]
  }

  /** Encoding then validating gives the arguments back. */
  lemma ParseEncode(a: ConvertArgs)
    ensures Parse(Encode(a)) == Success(a)
  {
    var args := Encode(a);
    assert HasString(args, InputPath) && HasString(args, OutputPath) && HasString(args, TargetFormat);
  }

  /** Keys other than the three fields have no effect on validation. */
  lemma ParseIgnoresOtherKeys(args: map<string, Value>, key: string, v: Value)
    requires key != InputPath && key != OutputPath && key != TargetFormat
    ensures Parse(args[key := v]) == Parse(args)
  {
    var args' := args[key := v];
    assert FieldIssues(args', InputPath) == FieldIssues(args, InputPath);
    assert FieldIssues(args', OutputPath) == FieldIssues(args, OutputPath);
    assert FieldIssues(args', TargetFormat) == FieldIssues(args, TargetFormat);
  }

  /** A failed validation names exactly the offending fields, in declaration order. */
  lemma ParseIssuesNameFields(args: map<string, Value>)
    requires Parse(args).Failure?
    ensures Parse(args).error ==
      FieldIssues(args, InputPath) + FieldIssues(args, OutputPath) + FieldIssues(args, TargetFormat)
    ensures forall k :: 0 <= k < |Parse(args).error| ==>
      !HasString(args, Parse(args).error[k].field)
  {
    var a := FieldIssues(args, InputPath);
    var b := FieldIssues(args, OutputPath);
    var c := FieldIssues(args, TargetFormat);
    var issues := a + b + c;
    forall k | 0 <= k < |issues|
      ensures !HasString(args, issues[k].field)
    {
      if k < |a| {
        assert issues[k] == a[k];
      } else if k < |a| + |b| {
        assert issues[k] == b[k - |a|];
      } else {
        assert issues[k] == c[k - |a| - |b|];
      }
    }
  }

  /** An arguments object holding none of the fields (the empty object, say) fails on all three as missing. */
  lemma NoFieldsAllMissing(args: map<string, Value>)
    requires InputPath !in args && OutputPath !in args && TargetFormat !in args
    ensures Parse(args) == Failure([Issue(InputPath, "Required"), Issue(OutputPath, "Required"), Issue(TargetFormat, "Required")])
  {
    assert FieldIssues(args, InputPath) == [Issue(InputPath, "Required")];
    assert FieldIssues(args, OutputPath) == [Issue(OutputPath, "Required")];
    assert FieldIssues(args, TargetFormat) == [Issue(TargetFormat, "Required")];
    assert [Issue(InputPath, "Required")] + [Issue(OutputPath, "Required")] + [Issue(TargetFormat, "Required")]
      == [Issue(InputPath, "Required"), Issue(OutputPath, "Required"), Issue(TargetFormat, "Required")];
  }

  /** One issue as a line of the validation error's message. */
  function Describe(issue: Issue): string
  {
    issue.field + ": " + issue.message
  }

  /** The validation error's message: the issues' lines separated by "; ". */
  function ValidationMessage(issues: seq<Issue>): (m: string)
    ensures issues != [] ==> m != []
    decreases |issues|
  {
    if issues == [] then ""
    else if |issues| == 1 then Describe(issues[0])
    else Describe(issues[0]) + "; " + ValidationMessage(issues[1..])
  }

  /** The message opens with the first offending field's line. */
  lemma {:induction false} ValidationMessageStartsWithFirst(issues: seq<Issue>)
    requires issues != []
    ensures Describe(issues[0]) <= ValidationMessage(issues)
  {
    if |issues| > 1 {
      var d := Describe(issues[0]);
      var m := ValidationMessage(issues);
      assert m == d + ("; " + ValidationMessage(issues[1..]));
      assert m[..|d|] == d;
    }
  }
}
