/** Validation issues and per-schema results, with their derived queries. */
module Results {
  import opened Wrappers

  /** The closed set of severities (`^(ERROR|WARNING|INFO)$`). */
  datatype Severity = Error | Warning | Info

  /**
   * What an issue's message says, kept structured: the text the source builds
   * from these parts is presentation.
   */
  datatype Message =
    | CouldNotRetrieve(curie: string)
    | LabelMismatch(expected: set<string>, actual: string)
    | SchemaFailure(reason: string)

  datatype Issue = Issue(
    enumName: string,
    valueName: string,
    severity: Severity,
    message: Message,
    meaning: Option<string>,
    expectedLabel: Option<string>,
    actualLabel: Option<string>)

  /** The outcome of validating one schema. */
  datatype ValidationResult = ValidationResult(
    schemaPath: string,
    issues: seq<Issue>,
    enumsChecked: nat,
    valuesChecked: nat,
    mappingsChecked: nat)

  /** The issues of one severity, in order (`[i for i in issues if i.severity == ...]`). */
  function OfSeverity(issues: seq<Issue>, sev: Severity): (r: seq<Issue>)
    ensures |r| <= |issues|
    ensures forall j :: 0 <= j < |r| ==> r[j].severity == sev && r[j] in issues
    ensures forall i :: 0 <= i < |issues| && issues[i].severity == sev ==> issues[i] in r
  {
    if issues == [] then []
    else
      var last := issues[|issues| - 1];
      OfSeverity(issues[..|issues| - 1], sev) + (if last.severity == sev then [last] else [])
  }

  lemma {:induction false} OfSeverityAppend(a: seq<Issue>, b: seq<Issue>, sev: Severity)
    ensures OfSeverity(a + b, sev) == OfSeverity(a, sev) + OfSeverity(b, sev)
    decreases |b|
  {
    if b == [] {
      assert a + b == a;
    } else {
      var b' := b[..|b| - 1];
      assert (a + b)[..|a + b| - 1] == a + b';
      OfSeverityAppend(a, b', sev);
    }
  }

  /** `any(i.severity == sev for i in issues)`. */
  function HasSeverity(issues: seq<Issue>, sev: Severity): (r: bool)
    ensures r <==> exists i :: 0 <= i < |issues| && issues[i].severity == sev
  {
    var found := OfSeverity(issues, sev);
    assert |found| > 0 ==> found[0] in issues && found[0].severity == sev;
    |found| > 0
  }

  /** `ValidationResult.has_errors`. */
  function HasErrors(res: ValidationResult): (r: bool)
    ensures r <==> exists i :: 0 <= i < |res.issues| && res.issues[i].severity == Error
    ensures r <==> OfSeverity(res.issues, Error) != []
  {
    HasSeverity(res.issues, Error)
  }

  /** `ValidationResult.has_warnings`. */
  function HasWarnings(res: ValidationResult): (r: bool)
    ensures r <==> exists i :: 0 <= i < |res.issues| && res.issues[i].severity == Warning
    ensures r <==> OfSeverity(res.issues, Warning) != []
  {
    HasSeverity(res.issues, Warning)
  }
}
