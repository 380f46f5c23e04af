/**
 * What `validate_enum` and `validate_schema` compute, as functions of the
 * resolver state they start from: the issues, the counters and the state the
 * label lookups leave behind.
 */
module Validation {
  import opened Wrappers
  import opened Schema
  import opened Results
  import opened Resolution
  import Normalizer
  import Aliases

  /** `{normalize_string(label) for label in expected_labels}`. */
  function NormalizedForms(forms: set<string>): (r: set<string>)
    ensures forall f :: f in forms ==> Normalizer.Normalize(f) in r
    ensures forall x :: x in r ==> exists f :: f in forms && Normalizer.Normalize(f) == x
    ensures forall x :: x in r ==> Normalizer.Canonical(x)
  {
    set f | f in forms :: Normalizer.Normalize(f)
  }

  /**
   * A retrieved label matches when it is non-empty and its normalisation is the
   * normalisation of some accepted form. An empty label never matches: the
   * source then compares `None` against the normalised set.
   */
  predicate Matches(found: string, forms: set<string>)
    ensures found != "" && found in forms ==> Matches(found, forms)
    ensures Matches(found, forms) <==>
      found != "" && exists f :: f in forms && Normalizer.Normalize(f) == Normalizer.Normalize(found)
  {
    found != "" && Normalizer.Normalize(found) in NormalizedForms(forms)
  }

  /** A label that differs from an accepted form only in ASCII case matches it. */
  lemma CaseVariantMatches(found: string, forms: set<string>, f: string)
    requires f in forms && found != "" && Normalizer.Lower(found) == Normalizer.Lower(f)
    ensures Matches(found, forms)
  {
    Normalizer.SameUpToCase(found, f);
  }

  /** The label `Red` matches a value named `RED`. */
  lemma RedMatchesRED()
    ensures Matches("Red", {"RED"})
  {
    assert Normalizer.Lower("Red") == "red" == Normalizer.Lower("RED");
    CaseVariantMatches("Red", {"RED"}, "RED");
  }

  /** The label `Crimson` does not match a value named `RED`: it is reported as a WARNING outside strict mode. */
  lemma CrimsonMismatchesRED()
    ensures !Matches("Crimson", {"RED"})
    ensures var r := Classify(false, "Color", "RED", "X:1", Some("Crimson"), {"RED"});
      r.Some? && r.value.severity == Warning && r.value.actualLabel == Some("Crimson")
      && r.value.message == LabelMismatch({"RED"}, "Crimson")
  {
    CrimsonIsNotRed();
    SingleForm("Crimson", "RED");
  }

  /** Against a single accepted form, a non-empty label matches exactly when both normalise alike. */
  lemma SingleForm(found: string, f: string)
    requires found != ""
    ensures Matches(found, {f}) <==> Normalizer.Normalize(found) == Normalizer.Normalize(f)
  {
    if Matches(found, {f}) {
      var g :| g in {f} && Normalizer.Normalize(g) == Normalizer.Normalize(found);
      assert g == f;
    }
    if Normalizer.Normalize(found) == Normalizer.Normalize(f) {
      assert f in {f};
    }
  }

  lemma CrimsonIsNotRed()
    ensures Normalizer.Normalize("Crimson") != Normalizer.Normalize("RED")
  {
    var a, b := Normalizer.AlnumOf("Crimson"), Normalizer.AlnumOf("RED");
    assert |b| <= 3;
    assert a[0] == 'C' && |a| >= 4;
    assert |Normalizer.Lower(a)| != |Normalizer.Lower(b)|;
  }

  /** A label that cannot be retrieved is reported as one INFO issue with the CURIE. */
  lemma NoLabelIsInfo()
    ensures var r := Classify(false, "Color", "RED", "X:1", None, {"RED"});
      r == Some(Issue("Color", "RED", Info, CouldNotRetrieve("X:1"), Some("X:1"), None, None))
  {
  }

  /** What an issue about value `nv` of enum `enumName` must look like. */
  predicate DescribesValue(issue: Issue, strict: bool, enumName: string, nv: NamedValue) {
    && issue.enumName == enumName
    && issue.valueName == nv.name
    && issue.meaning == nv.pv.meaning
    && HasMapping(nv)
    && (issue.severity == Info ==>
          && issue.expectedLabel.None? && issue.actualLabel.None?
          && issue.message == CouldNotRetrieve(nv.pv.meaning.value))
    && (issue.severity != Info ==>
          && issue.severity == (if strict then Error else Warning)
          && issue.expectedLabel == Some(nv.name)
          && issue.actualLabel.Some?
          && !Matches(issue.actualLabel.value, Aliases.AcceptedForms(nv.pv, nv.name)))
  }

  /** The issue (if any) for one value with a mapping, given the label its CURIE resolved to. */
  function Classify(strict: bool, enumName: string, valueName: string, meaning: string,
                    found: Option<string>, forms: set<string>): (r: Option<Issue>)
    ensures r.None? <==> found.Some? && Matches(found.value, forms)
    ensures r.Some? ==> r.value.enumName == enumName && r.value.valueName == valueName && r.value.meaning == Some(meaning)
    ensures r.Some? ==> (r.value.severity == Info <==> found.None?)
    ensures found.None? ==>
      && r.Some? && r.value.message == CouldNotRetrieve(meaning)
      && r.value.expectedLabel.None? && r.value.actualLabel.None?
    ensures r.Some? && found.Some? ==>
      && r.value.severity == (if strict then Error else Warning)
      && r.value.message == LabelMismatch(forms, found.value)
      && r.value.expectedLabel == Some(valueName) && r.value.actualLabel == found
  {
    if found.None? then
      Some(Issue(enumName, valueName, Info, CouldNotRetrieve(meaning), Some(meaning), None, None))
    else if !Matches(found.value, forms) then
      Some(Issue(enumName, valueName, if strict then Error else Warning,
                 LabelMismatch(forms, found.value), Some(meaning), Some(valueName), found))
    else
      None
  }

  /** One iteration of `validate_enum`'s loop: skip a value without mapping, else resolve and classify. */
  function ValueOutcome(cfg: Config, be: Backend, st: ResolverState, enumName: string, nv: NamedValue)
    : (r: (Option<Issue>, ResolverState))
    ensures !HasMapping(nv) ==> r.0.None? && r.1 == st
    ensures r.0.Some? ==> DescribesValue(r.0.value, cfg.strictMode, enumName, nv)
    ensures HasMapping(nv) ==> r.1 == Resolve(cfg, be, st, nv.pv.meaning.value).state
  {
    if !HasMapping(nv) then (None, st)
    else
      var meaning := nv.pv.meaning.value;
      var step := Resolve(cfg, be, st, meaning);
      (Classify(cfg.strictMode, enumName, nv.name, meaning, step.termLabel, Aliases.AcceptedForms(nv.pv, nv.name)),
       step.state)
  }

  /**
   * A mapped value's outcome is the classification of the label its meaning
   * resolves to: it is reported exactly when that label is absent or does not
   * match, and the issue carries the label found.
   */
  lemma ValueOutcomeClassifies(cfg: Config, be: Backend, st: ResolverState, enumName: string, nv: NamedValue)
    requires HasMapping(nv)
    ensures var r := ValueOutcome(cfg, be, st, enumName, nv);
      var found := Resolve(cfg, be, st, nv.pv.meaning.value).termLabel;
      var forms := Aliases.AcceptedForms(nv.pv, nv.name);
      && r.0 == Classify(cfg.strictMode, enumName, nv.name, nv.pv.meaning.value, found, forms)
      && (r.0.None? <==> found.Some? && Matches(found.value, forms))
      && (r.0.Some? ==> r.0.value.actualLabel == found && (r.0.value.severity == Info <==> found.None?))
  {
  }

  /** The per-value outcomes of `validate_enum` over `vs`, in order, and the resolver state after them. */
  function EnumOutcomes(cfg: Config, be: Backend, st: ResolverState, enumName: string, vs: seq<NamedValue>)
    : (r: (seq<Option<Issue>>, ResolverState))
    ensures |r.0| == |vs|
    ensures forall i :: 0 <= i < |vs| && !HasMapping(vs[i]) ==> r.0[i].None?
    ensures forall i :: 0 <= i < |vs| && r.0[i].Some? ==> DescribesValue(r.0[i].value, cfg.strictMode, enumName, vs[i])
    decreases |vs|
  {
    if vs == [] then ([], st)
    else
      var (outs, mid) := EnumOutcomes(cfg, be, st, enumName, vs[..|vs| - 1]);
      var (out, next) := ValueOutcome(cfg, be, mid, enumName, vs[|vs| - 1]);
      (outs + [out], next)
  }

  /** One more value: its outcome is appended, and its issue, if any, follows the issues so far. */
  lemma EnumOutcomesStep(cfg: Config, be: Backend, st: ResolverState, enumName: string, vs: seq<NamedValue>, i: nat)
    requires i < |vs|
    ensures var prev := EnumOutcomes(cfg, be, st, enumName, vs[..i]);
      var step := ValueOutcome(cfg, be, prev.1, enumName, vs[i]);
      var next := EnumOutcomes(cfg, be, st, enumName, vs[..i + 1]);
      && next == (prev.0 + [step.0], step.1)
      && Present(next.0) == Present(prev.0) + (if step.0.Some? then [step.0.value] else [])
  {
    assert vs[..i + 1][..i] == vs[..i];
    var prev := EnumOutcomes(cfg, be, st, enumName, vs[..i]);
    var step := ValueOutcome(cfg, be, prev.1, enumName, vs[i]);
    PresentAppend(prev.0, [step.0]);
  }

  /** The issues among some outcomes, in order. */
  function Present(outs: seq<Option<Issue>>): (r: seq<Issue>)
    ensures |r| <= |outs|
  {
    if outs == [] then []
    else
      var last := outs[|outs| - 1];
      Present(outs[..|outs| - 1]) + (if last.Some? then [last.value] else [])
  }

  lemma {:induction false} PresentAppend(a: seq<Option<Issue>>, b: seq<Option<Issue>>)
    ensures Present(a + b) == Present(a) + Present(b)
    decreases |b|
  {
    if b == [] {
      assert a + b == a;
    } else {
      assert (a + b)[..|a + b| - 1] == a + b[..|b| - 1];
      PresentAppend(a, b[..|b| - 1]);
    }
  }

  /** Every issue among some outcomes is one of them. */
  lemma {:induction false} PresentFrom(outs: seq<Option<Issue>>, x: Issue)
    requires x in Present(outs)
    ensures exists i :: 0 <= i < |outs| && outs[i] == Some(x)
    decreases |outs|
  {
    var init := outs[..|outs| - 1];
    if x in Present(init) {
      PresentFrom(init, x);
      var i :| 0 <= i < |init| && init[i] == Some(x);
      assert outs[i] == init[i];
    } else {
      assert outs[|outs| - 1] == Some(x);
    }
  }

  /** Every present outcome is among the issues. */
  lemma {:induction false} PresentHas(outs: seq<Option<Issue>>, i: nat)
    requires i < |outs| && outs[i].Some?
    ensures outs[i].value in Present(outs)
    decreases |outs|
  {
    var init := outs[..|outs| - 1];
    if i < |init| {
      PresentHas(init, i);
      assert init[i] == outs[i];
    }
  }

  /** The outcome of value `i` is its `ValueOutcome` from the state the values before it left. */
  lemma {:induction false} OutcomeAt(cfg: Config, be: Backend, st: ResolverState, enumName: string, vs: seq<NamedValue>, i: nat)
    requires i < |vs|
    ensures EnumOutcomes(cfg, be, st, enumName, vs).0[i]
         == ValueOutcome(cfg, be, EnumOutcomes(cfg, be, st, enumName, vs[..i]).1, enumName, vs[i]).0
    decreases |vs|
  {
    var init := vs[..|vs| - 1];
    if i < |init| {
      assert init[..i] == vs[..i] && init[i] == vs[i];
      OutcomeAt(cfg, be, st, enumName, init, i);
    } else {
      assert init == vs[..i];
    }
  }

  /** The label the CURIE of mapped value `i` resolves to when `validate_enum` reaches it. */
  function LabelAt(cfg: Config, be: Backend, st: ResolverState, enumName: string, vs: seq<NamedValue>, i: nat)
    : (r: Option<string>)
    requires i < |vs| && HasMapping(vs[i])
    ensures r == Resolve(cfg, be, ResolveMany(cfg, be, st, Meanings(vs[..i])).state, vs[i].pv.meaning.value).termLabel
  {
    EnumOutcomesFollowResolver(cfg, be, st, enumName, vs[..i]);
    Resolve(cfg, be, EnumOutcomes(cfg, be, st, enumName, vs[..i]).1, vs[i].pv.meaning.value).termLabel
  }

  /**
   * Nothing is dropped silently: a mapped value whose label is absent or does
   * not match is reported, with the label found, and a matching one is not.
   */
  lemma MismatchIsReported(cfg: Config, be: Backend, st: ResolverState, enumName: string, vs: seq<NamedValue>, i: nat)
    requires i < |vs| && HasMapping(vs[i])
    ensures var outs := EnumOutcomes(cfg, be, st, enumName, vs).0;
      var found := LabelAt(cfg, be, st, enumName, vs, i);
      && (outs[i].None? <==> found.Some? && Matches(found.value, Aliases.AcceptedForms(vs[i].pv, vs[i].name)))
      && (outs[i].Some? ==>
            && outs[i].value in Present(outs)
            && DescribesValue(outs[i].value, cfg.strictMode, enumName, vs[i])
            && outs[i].value.actualLabel == found)
  {
    OutcomeAt(cfg, be, st, enumName, vs, i);
    EnumOutcomesFollowResolver(cfg, be, st, enumName, vs[..i]);
    ValueOutcomeClassifies(cfg, be, EnumOutcomes(cfg, be, st, enumName, vs[..i]).1, enumName, vs[i]);
    var outs := EnumOutcomes(cfg, be, st, enumName, vs).0;
    if outs[i].Some? {
      PresentHas(outs, i);
    }
  }

  /**
   * Each issue `validate_enum` reports is about one of the enum's values that
   * has a mapping, carries the label that value's CURIE resolved to, and is
   * INFO exactly when no label came back.
   */
  lemma IssuesDescribeValues(cfg: Config, be: Backend, st: ResolverState, enumName: string, vs: seq<NamedValue>, x: Issue)
    requires x in Present(EnumOutcomes(cfg, be, st, enumName, vs).0)
    ensures exists i ::
              && 0 <= i < |vs| && DescribesValue(x, cfg.strictMode, enumName, vs[i])
              && x.actualLabel == LabelAt(cfg, be, st, enumName, vs, i)
              && (x.severity == Info <==> LabelAt(cfg, be, st, enumName, vs, i).None?)
  {
    var outs := EnumOutcomes(cfg, be, st, enumName, vs).0;
    PresentFrom(outs, x);
    var i :| 0 <= i < |outs| && outs[i] == Some(x);
    OutcomeAt(cfg, be, st, enumName, vs, i);
    ValueOutcomeClassifies(cfg, be, EnumOutcomes(cfg, be, st, enumName, vs[..i]).1, enumName, vs[i]);
    assert DescribesValue(x, cfg.strictMode, enumName, vs[i]);
  }

  /** `validate_enum` emits at most one issue per value with a mapping, and none for the others. */
  lemma {:induction false} AtMostOneIssuePerMapping(outs: seq<Option<Issue>>, vs: seq<NamedValue>)
    requires |outs| == |vs|
    requires forall i :: 0 <= i < |vs| && !HasMapping(vs[i]) ==> outs[i].None?
    ensures |Present(outs)| <= MappingCount(vs)
    decreases |vs|
  {
    if vs != [] {
      AtMostOneIssuePerMapping(outs[..|outs| - 1], vs[..|vs| - 1]);
    }
  }

  /** The CURIEs `validate_enum` resolves: the truthy meanings, in order. */
  function Meanings(vs: seq<NamedValue>): (r: seq<string>)
    ensures |r| == MappingCount(vs)
  {
    if vs == [] then []
    else
      var last := vs[|vs| - 1];
      Meanings(vs[..|vs| - 1]) + (if HasMapping(last) then [last.pv.meaning.value] else [])
  }

  /** `validate_enum` leaves the resolver exactly where resolving its values' meanings in order would. */
  lemma {:induction false} EnumOutcomesFollowResolver(cfg: Config, be: Backend, st: ResolverState, enumName: string, vs: seq<NamedValue>)
    ensures EnumOutcomes(cfg, be, st, enumName, vs).1 == ResolveMany(cfg, be, st, Meanings(vs)).state
    decreases |vs|
  {
    if vs != [] {
      var init := vs[..|vs| - 1];
      EnumOutcomesFollowResolver(cfg, be, st, enumName, init);
      var last := vs[|vs| - 1];
      if HasMapping(last) {
        var ms := Meanings(vs);
        assert ms[..|ms| - 1] == Meanings(init);
      } else {
        assert Meanings(vs) == Meanings(init);
      }
    }
  }

  /** The synthetic issue recorded when a schema cannot be loaded. */
  function FailureIssue(reason: string): (r: Issue)
    ensures r.severity == Error && r.message == SchemaFailure(reason)
    ensures r.meaning.None? && r.expectedLabel.None? && r.actualLabel.None?
  {
    Issue("<schema>", "<error>", Error, SchemaFailure(reason), None, None, None)
  }

  /** Sum of `len(permissible_values)` over some enums. */
  function TotalValues(enums: seq<NamedEnum>): nat {
    if enums == [] then 0 else TotalValues(enums[..|enums| - 1]) + |enums[|enums| - 1].def.values|
  }

  /** Sum of the mapping counts over some enums. */
  function TotalMappings(enums: seq<NamedEnum>): (n: nat)
    ensures n <= TotalValues(enums)
  {
    if enums == [] then 0 else TotalMappings(enums[..|enums| - 1]) + MappingCount(enums[|enums| - 1].def.values)
  }

  /** The issues of one enum, enum by enum: `validate_enum` is called only when the enum has values. */
  function EnumIssues(cfg: Config, be: Backend, st: ResolverState, e: NamedEnum): (r: (seq<Issue>, ResolverState))
    ensures |r.0| <= MappingCount(e.def.values)
  {
    if |e.def.values| > 0 then
      var (outs, next) := EnumOutcomes(cfg, be, st, e.name, e.def.values);
      AtMostOneIssuePerMapping(outs, e.def.values);
      (Present(outs), next)
    else ([], st)
  }

  /** The counters and issues after one more enum. */
  function Tally(res: ValidationResult, e: NamedEnum, issues: seq<Issue>): (r: ValidationResult)
    ensures r.schemaPath == res.schemaPath && |r.issues| == |res.issues| + |issues|
    ensures r.issues[..|res.issues|] == res.issues && r.issues[|res.issues|..] == issues
    ensures r.enumsChecked == res.enumsChecked + 1
    ensures r.valuesChecked - res.valuesChecked == |e.def.values|
    ensures r.mappingsChecked - res.mappingsChecked == MappingCount(e.def.values)
  {
    res.(enumsChecked := res.enumsChecked + 1,
         valuesChecked := res.valuesChecked + |e.def.values|,
         mappingsChecked := res.mappingsChecked + MappingCount(e.def.values),
         issues := res.issues + issues)
  }

  /** `validate_schema`'s loop over the loaded enums. */
  function EnumsRun(cfg: Config, be: Backend, st: ResolverState, path: string, enums: seq<NamedEnum>)
    : (r: (ValidationResult, ResolverState))
    ensures r.0.schemaPath == path
    ensures r.0.enumsChecked == |enums|
    ensures r.0.valuesChecked == TotalValues(enums)
    ensures r.0.mappingsChecked == TotalMappings(enums)
    ensures |r.0.issues| <= r.0.mappingsChecked <= r.0.valuesChecked
    decreases |enums|
  {
    if enums == [] then (ValidationResult(path, [], 0, 0, 0), st)
    else
      var (res, mid) := EnumsRun(cfg, be, st, path, enums[..|enums| - 1]);
      var e := enums[|enums| - 1];
      var (issues, next) := EnumIssues(cfg, be, mid, e);
      (Tally(res, e, issues), next)
  }

  /** One more enum: how `EnumsRun` over a longer prefix is built from the shorter one. */
  lemma EnumsRunStep(cfg: Config, be: Backend, st: ResolverState, path: string, enums: seq<NamedEnum>, i: nat)
    requires i < |enums|
    ensures var mid := EnumsRun(cfg, be, st, path, enums[..i]);
      var step := EnumIssues(cfg, be, mid.1, enums[i]);
      EnumsRun(cfg, be, st, path, enums[..i + 1]) == (Tally(mid.0, enums[i], step.0), step.1)
  {
    assert enums[..i + 1][..i] == enums[..i];
  }

  /** `validate_schema`: a load failure becomes one synthetic ERROR with every counter at zero. */
  function SchemaRun(cfg: Config, be: Backend, st: ResolverState, path: string, src: SchemaSource)
    : (r: (ValidationResult, ResolverState))
    ensures r.0.schemaPath == path
    ensures src.LoadFailed? ==>
      && r.0.issues == [FailureIssue(src.reason)]
      && r.0.enumsChecked == 0 && r.0.valuesChecked == 0 && r.0.mappingsChecked == 0
      && r.1 == st
    ensures src.Loaded? ==>
      && r.0.enumsChecked == |src.enums|
      && r.0.valuesChecked == TotalValues(src.enums)
      && r.0.mappingsChecked == TotalMappings(src.enums)
      && |r.0.issues| <= r.0.mappingsChecked <= r.0.valuesChecked

  {
    match src
    case LoadFailed(reason) => (ValidationResult(path, [FailureIssue(reason)], 0, 0, 0), st)
    case Loaded(enums) => EnumsRun(cfg, be, st, path, enums)
  }

  /** A schema that fails to load has errors and nothing else. */
  lemma LoadFailureIsOneError(cfg: Config, be: Backend, st: ResolverState, path: string, reason: string)
    ensures var res := SchemaRun(cfg, be, st, path, LoadFailed(reason)).0;
      HasErrors(res) && !HasWarnings(res) && |OfSeverity(res.issues, Error)| == 1
  {
    var res := SchemaRun(cfg, be, st, path, LoadFailed(reason)).0;
    assert res.issues[..0] == [];
  }


  /** A schema file with its load outcome, as `main` visits them. */
  datatype SchemaFile = SchemaFile(path: string, src: SchemaSource)

  /** `main`'s directory loop: each file validated by the same evaluator, in order. */
  function BatchRun(cfg: Config, be: Backend, st: ResolverState, files: seq<SchemaFile>)
    : (r: (seq<ValidationResult>, ResolverState))
    ensures |r.0| == |files|
    decreases |files|
  {
    if files == [] then ([], st)
    else
      var (results, mid) := BatchRun(cfg, be, st, files[..|files| - 1]);
      var f := files[|files| - 1];
      var (res, next) := SchemaRun(cfg, be, mid, f.path, f.src);
      (results + [res], next)
  }

  /** The result reported for a file: it carries the file's path, and a load failure is its one synthetic ERROR. */
  predicate ReportsFile(res: ValidationResult, f: SchemaFile) {
    && res.schemaPath == f.path
    && (f.src.LoadFailed? ==> res.issues == [FailureIssue(f.src.reason)] && res.enumsChecked == 0)
  }

  /**
   * Every file gets its own result, in order; a file that fails to load
   * contributes its single synthetic ERROR and does not stop the others.
   */
  lemma {:induction false} BatchKeepsEveryFile(cfg: Config, be: Backend, st: ResolverState, files: seq<SchemaFile>)
    ensures var results := BatchRun(cfg, be, st, files).0;
      forall i :: 0 <= i < |files| ==> ReportsFile(results[i], files[i])
    decreases |files|
  {
    if files != [] {
      var init := files[..|files| - 1];
      var f := files[|files| - 1];
      assert files == init + [f];
      BatchKeepsEveryFile(cfg, be, st, init);
      var (prevs, mid) := BatchRun(cfg, be, st, init);
      var res := SchemaRun(cfg, be, mid, f.path, f.src).0;
      ReportsAppend(prevs, res, init, f);
    }
  }

  lemma ReportsAppend(prevs: seq<ValidationResult>, res: ValidationResult, init: seq<SchemaFile>, f: SchemaFile)
    requires |prevs| == |init| && ReportsFile(res, f)
    requires forall i :: 0 <= i < |init| ==> ReportsFile(prevs[i], init[i])
    ensures forall i :: 0 <= i < |init| + 1 ==> ReportsFile((prevs + [res])[i], (init + [f])[i])
  {
  }

  /**
   * The i-th result of a batch is exactly that file's own validation, run by
   * the evaluator as the files before it left it.
   */
  lemma {:induction false} BatchResultAt(cfg: Config, be: Backend, st: ResolverState, files: seq<SchemaFile>, i: nat)
    requires i < |files|
    ensures BatchRun(cfg, be, st, files).0[i]
         == SchemaRun(cfg, be, BatchRun(cfg, be, st, files[..i]).1, files[i].path, files[i].src).0
    decreases |files|
  {
    var init := files[..|files| - 1];
    if i < |init| {
      BatchResultAt(cfg, be, st, init, i);
      assert init[..i] == files[..i];
      assert init[i] == files[i];
    }
  }

  /** The CURIEs a loaded schema's validation resolves, enum after enum. */
  function EnumsMeanings(enums: seq<NamedEnum>): seq<string> {
    if enums == [] then [] else EnumsMeanings(enums[..|enums| - 1]) + Meanings(enums[|enums| - 1].def.values)
  }

  function SourceMeanings(src: SchemaSource): seq<string> {
    match src
    case LoadFailed(_) => []
    case Loaded(enums) => EnumsMeanings(enums)
  }

  /** The CURIEs a batch resolves, file after file. */
  function BatchMeanings(files: seq<SchemaFile>): seq<string> {
    if files == [] then [] else BatchMeanings(files[..|files| - 1]) + SourceMeanings(files[|files| - 1].src)
  }

  lemma {:induction false} EnumsRunFollowsResolver(cfg: Config, be: Backend, st: ResolverState, path: string, enums: seq<NamedEnum>)
    ensures EnumsRun(cfg, be, st, path, enums).1 == ResolveMany(cfg, be, st, EnumsMeanings(enums)).state
    decreases |enums|
  {
    if enums != [] {
      var init := enums[..|enums| - 1];
      var e := enums[|enums| - 1];
      EnumsRunFollowsResolver(cfg, be, st, path, init);
      var mid := EnumsRun(cfg, be, st, path, init).1;
      EnumOutcomesFollowResolver(cfg, be, mid, e.name, e.def.values);
      ResolveManyAppend(cfg, be, st, EnumsMeanings(init), Meanings(e.def.values));
    }
  }

  /** A whole batch leaves the resolver exactly where resolving all its meanings in order would. */
  lemma {:induction false} BatchRunFollowsResolver(cfg: Config, be: Backend, st: ResolverState, files: seq<SchemaFile>)
    ensures BatchRun(cfg, be, st, files).1 == ResolveMany(cfg, be, st, BatchMeanings(files)).state
    decreases |files|
  {
    if files != [] {
      var init := files[..|files| - 1];
      var f := files[|files| - 1];
      BatchRunFollowsResolver(cfg, be, st, init);
      var mid := BatchRun(cfg, be, st, init).1;
      if f.src.Loaded? {
        EnumsRunFollowsResolver(cfg, be, mid, f.path, f.src.enums);
      }
      ResolveManyAppend(cfg, be, st, BatchMeanings(init), SourceMeanings(f.src));
    }
  }

  /**
   * With caching on, a whole batch run by a fresh evaluator asks the backend for
   * each CURIE's label at most once, however many values share that meaning;
   * in dynamic mode, a meaning of the batch whose prefix has a database is
   * asked exactly once.
   */
  lemma BatchLooksUpEachCurieOnce(cfg: Config, be: Backend, files: seq<SchemaFile>, c: string)
    requires cfg.cacheLabels
    ensures multiset(BatchRun(cfg, be, Initial(cfg, be), files).1.lookups)[c] <= 1
    ensures c in BatchMeanings(files) && UsesPrefix(cfg, c) && OpenForPrefix(be, Prefix(c).value).Some? ==>
      multiset(BatchRun(cfg, be, Initial(cfg, be), files).1.lookups)[c] == 1
  {
    var st := Initial(cfg, be);
    BatchRunFollowsResolver(cfg, be, st, files);
    CachedCurieLookedUpOnce(cfg, be, st, BatchMeanings(files), c);
    if c in BatchMeanings(files) && UsesPrefix(cfg, c) && OpenForPrefix(be, Prefix(c).value).Some? {
      CachedCurieLookedUpExactlyOnce(cfg, be, st, BatchMeanings(files), c);
    }
  }
}
