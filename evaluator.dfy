/**
 * `EnumEvaluator`: the label cache and the adapter table as fields updated in
 * place, and the three operations that use them. Each method is proved to do
 * what the matching function of modules Resolution and Validation describes.
 */
module Evaluator {
  import opened Wrappers
  import opened Schema
  import opened Results
  import opened Resolution
  import opened Validation
  import Aliases

  /** The inner loop of `validate_schema` that counts the values with a truthy `meaning`. */
  method CountMappings(vs: seq<NamedValue>) returns (n: nat)
    ensures n == MappingCount(vs)
  {
    n := 0;
    for j := 0 to |vs|
      invariant n == MappingCount(vs[..j])
    {
      assert vs[..j + 1][..j] == vs[..j];
      if HasMapping(vs[j]) {
        n := n + 1;
      }
    }
    assert vs[..|vs|] == vs;
  }

  class EnumEvaluator {
    const config: Config
    const backend: Backend
    /** `_label_cache`: `None` when caching is off; a cached `None` records a failed lookup. */
    var labelCache: Option<map<string, Option<string>>>
    /** `_per_prefix_adapters`: adapters named by their locator; a `None` entry is a tombstone. */
    var adapters: map<string, Option<string>>
    /** The table keys for which adapter construction was attempted, in order. */
    ghost var constructions: seq<string>
    /** The CURIEs passed to the backend's label lookup, in order. */
    ghost var lookups: seq<string>

    ghost function State(): ResolverState
      reads this
    {
      ResolverState(labelCache, adapters, constructions, lookups)
    }

    ghost predicate Valid()
      reads this
    {
      WellFormed(config, backend, State())
    }

    /** `__init__` followed by `_initialize_oak`. */
    constructor (config: Config, backend: Backend)
      ensures this.config == config && this.backend == backend
      ensures Valid() && State() == Initial(config, backend)
    {
      this.config := config;
      this.backend := backend;
      labelCache := if config.cacheLabels then Some(map[]) else None;
      adapters := map[];
      constructions := [];
      lookups := [];
      new;
      if backend.hasOak && config.adapterString != DynamicAdapter {
        constructions := [DefaultKey];
        if backend.Opens(config.adapterString) {
          adapters := adapters[DefaultKey := Some(config.adapterString)];
        }
      }
    }

    /** `get_ontology_label`. */
    method GetLabel(curie: string) returns (found: Option<string>)
      requires Valid()
      modifies this
      ensures Valid()
      ensures Step(found, State()) == Resolve(config, backend, old(State()), curie)
    {
      ghost var before := State();
      if labelCache.Some? && curie in labelCache.value {
        found := labelCache.value[curie];
        return;
      }
      found := None;
      var adapter: Option<string>;
      var prefix := Prefix(curie);
      if config.adapterString == DynamicAdapter && prefix.Some? && prefix.value != "" {
        var p := prefix.value;
        if p !in adapters {
          constructions := constructions + [p];
          if backend.Opens(DynamicAdapter + p) {
            adapters := adapters[p := Some(DynamicAdapter + p)];
          } else if backend.Opens(MergedAdapter) {
            adapters := adapters[p := Some(MergedAdapter)];
          } else {
            adapters := adapters[p := None];
          }
        }
        adapter := adapters[p];
      } else {
        adapter := if DefaultKey in adapters then adapters[DefaultKey] else None;
      }
      assert (adapter, adapters, constructions) == SelectAdapter(config, backend, before, curie);
      if adapter.Some? {
        lookups := lookups + [curie];
        found := backend.lookup(adapter.value, curie);
      }
      if labelCache.Some? {
        labelCache := Some(labelCache.value[curie := found]);
      }
      assert Step(found, State()) == Resolve(config, backend, before, curie);
    }

    /** The body of `validate_enum`'s loop for a value with a mapping: look the label up, gather the accepted forms, classify. */
    method CheckValue(enumName: string, nv: NamedValue) returns (issue: Option<Issue>)
      requires Valid() && HasMapping(nv)
      modifies this
      ensures Valid()
      ensures var step := ValueOutcome(config, backend, old(State()), enumName, nv);
        issue == step.0 && State() == step.1
    {
      var meaning := nv.pv.meaning.value;
      var found := GetLabel(meaning);
      var forms := Aliases.ExtractAliases(nv.pv, nv.name);
      issue := Classify(config.strictMode, enumName, nv.name, meaning, found, forms);
    }

    /** `validate_enum`: one pass over the permissible values, appending at most one issue per value. */
    method ValidateEnum(enumDef: EnumDefinition, enumName: string) returns (issues: seq<Issue>)
      requires Valid()
      modifies this
      ensures Valid()
      ensures var r := EnumOutcomes(config, backend, old(State()), enumName, enumDef.values);
        issues == Present(r.0) && State() == r.1
    {
      issues := [];
      var vs := enumDef.values;
      if |vs| == 0 {
        return;
      }
      ghost var start := old(State());
      for i := 0 to |vs|
        invariant Valid()
        invariant var r := EnumOutcomes(config, backend, start, enumName, vs[..i]);
          issues == Present(r.0) && State() == r.1
      {
        EnumOutcomesStep(config, backend, start, enumName, vs, i);
        var nv := vs[i];
        if !HasMapping(nv) {
          continue;
        }
        var issue := CheckValue(enumName, nv);
        if issue.Some? {
          issues := issues + [issue.value];
        }
      }
      assert vs[..|vs|] == vs;
    }

    /** `validate_schema`: a load failure becomes one ERROR issue, otherwise the loaded enums are checked. */
    method ValidateSchema(path: string, src: SchemaSource) returns (result: ValidationResult)
      requires Valid()
      modifies this
      ensures Valid()
      ensures var r := SchemaRun(config, backend, old(State()), path, src);
        result == r.0 && State() == r.1
    {
      result := ValidationResult(path, [], 0, 0, 0);
      if src.LoadFailed? {
        result := result.(issues := result.issues + [FailureIssue(src.reason)]);
        return;
      }
      result := ValidateEnums(path, src.enums);
    }

    /** One iteration of `validate_schema`'s loop: counts the enum, and for a non-empty enum its values, mappings and issues. */
    method CheckEnum(acc: ValidationResult, e: NamedEnum) returns (result: ValidationResult)
      requires Valid()
      modifies this
      ensures Valid()
      ensures var step := EnumIssues(config, backend, old(State()), e);
        result == Tally(acc, e, step.0) && State() == step.1
    {
      ghost var step := EnumIssues(config, backend, State(), e);
      result := acc.(enumsChecked := acc.enumsChecked + 1);
      var vs := e.def.values;
      if |vs| > 0 {
        result := result.(valuesChecked := result.valuesChecked + |vs|);
        var mapped := CountMappings(vs);
        result := result.(mappingsChecked := result.mappingsChecked + mapped);
        var issues := ValidateEnum(e.def, e.name);
        assert issues == step.0;
        result := result.(issues := result.issues + issues);
      }
    }

    /** The body of `validate_schema`'s `try`: counts enums, values and mappings and collects each enum's issues. */
    method ValidateEnums(path: string, enums: seq<NamedEnum>) returns (result: ValidationResult)
      requires Valid()
      modifies this
      ensures Valid()
      ensures var r := EnumsRun(config, backend, old(State()), path, enums);
        result == r.0 && State() == r.1
    {
      result := ValidationResult(path, [], 0, 0, 0);
      ghost var start := old(State());
      for i := 0 to |enums|
        invariant Valid()
        invariant var r := EnumsRun(config, backend, start, path, enums[..i]);
          result == r.0 && State() == r.1
      {
        EnumsRunStep(config, backend, start, path, enums, i);
        result := CheckEnum(result, enums[i]);
      }
      assert enums[..|enums|] == enums;
    }

    /** `main`'s directory mode: every schema file validated in turn by this one evaluator. */
    method ValidateBatch(files: seq<SchemaFile>) returns (results: seq<ValidationResult>)
      requires Valid()
      modifies this
      ensures Valid()
      ensures var r := BatchRun(config, backend, old(State()), files);
        results == r.0 && State() == r.1
    {
      results := [];
      for i := 0 to |files|
        invariant Valid()
        invariant var r := BatchRun(config, backend, old(State()), files[..i]);
          results == r.0 && State() == r.1
      {
        assert files[..i + 1][..i] == files[..i];
        var res := ValidateSchema(files[i].path, files[i].src);
        results := results + [res];
      }
      assert files[..|files|] == files;
    }
  }
}
