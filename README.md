# Ontology-mapping validator of linkml/valuesets, modelled in Dafny

The valuesets repository defines LinkML enums. Each permissible value may
carry a `meaning`, a CURIE such as `GO:0008150` naming an ontology term. The
enum evaluator (`src/valuesets/validators/enum_evaluator.py`) checks each
meaning: it looks up the term's label through the Ontology Access Kit (OAK)
and compares that label with the names the value is known by. Every
disagreement becomes an issue: INFO when no label could be retrieved,
otherwise a WARNING, or an ERROR in strict mode. No issue is recorded when
the label matches. The command-line entry point turns the issues into a
listing and an exit status.

The project models the following:

- `normalizer.dfy` (module `Normalizer`) is `normalize_string` as a chain of
  pure functions. There is one per substitution, plus strip and lower-case.
  It proves that the output is canonical (only `[a-z0-9 ]`, no leading,
  trailing or doubled space), that with its spaces taken out it is the
  input's ASCII letters and digits lower-cased, that it ignores ASCII case
  and punctuation, and that normalising twice equals normalising once.
- `schema.dfy` (module `Schema`) holds the input data: permissible values,
  their titles, aliases, structured aliases and annotations, the enums, and a
  schema that either loads or fails to load.
- `results.dfy` (module `Results`) holds `ValidationIssue`, `ValidationResult`
  and `has_errors` / `has_warnings`.
- `aliases.dfy` (module `Aliases`) is `extract_aliases`. It is an imperative
  method that builds a set with two loops, proved equal to a set-valued
  specification function. The exact contents of that function are proved in
  both directions.
- `resolution.dfy` (module `Resolution`) covers `_initialize_oak` and
  `get_ontology_label` as one step over the resolver state. The state is the
  label cache and the per-prefix adapter table, plus two logs of what was
  asked of the backend. It proves:
  - cache-hit semantics;
  - that table entries are never replaced;
  - that an adapter is built at most once per prefix;
  - that a tombstoned prefix always yields `None`;
  - that with caching on, each CURIE reaches the backend at most once, and
    exactly once when its prefix has a database in dynamic mode;
  - which label a cache miss returns: the one the selected adapter looks up.
- `validation.dfy` (module `Validation`) gives what `validate_enum` and
  `validate_schema` compute, as functions of the resolver state they start
  from. It covers:
  - the three-way classification, in both directions: a mapped value gets
    an issue exactly when its label is absent or does not match;
  - at most one issue per mapped value;
  - the counters and `mappings <= values`;
  - the single synthetic ERROR when a schema does not load.
- `evaluator.dfy` (module `Evaluator`) is the `EnumEvaluator` class. The
  label cache and the adapter table are fields that its methods update in
  place. Each method is proved against the functions of `Resolution` and
  `Validation`, and keeps the resolver invariant `Valid()`.
- `cli.dfy` (module `Cli`) covers the decisions `main` makes:
  - the exit status in file and directory mode;
  - the warning listings capped at 300 (file mode) and 100 (directory mode,
    an imperative loop with `break`);
  - which files of a directory are validated, and in which order.

OAK is an abstract `Backend`. It says whether OAK is installed, which
adapter strings can be opened, and what label an opened adapter returns for
a CURIE. Every exception OAK may raise appears as "cannot be opened" or as
a `None` label, which is how the source handles them. Schema loading is an
input that either yields the enums or fails with a reason.

Some behaviour that the model makes explicit:

- An empty-string label is a mismatch, never INFO. The source only
  normalises a truthy label, so the comparison is made with `None`, which is
  never among the normalised alias strings.
- `get_ontology_label`'s "falls back to `'_default'`" case gives `None` only
  while `'_default'` is not a key of the adapter table. In dynamic mode, a
  CURIE whose prefix is literally `_default` (`_default:1`) creates that
  entry. After that, CURIEs without a colon are looked up through it.
  `Resolution.Resolve` states the fallback property under that hypothesis.
- Paths under a directory are sorted as `pathlib` sorts them: component by
  component. For normalised paths this is string order with `/` ranked below
  every other character.

## Model

| member | source | states |
|---|---|---|
| Normalizer.ReplaceNonWord | src/valuesets/validators/enum_evaluator.py:192 | same length; ASCII letters, digits and whitespace are kept, every other character becomes a space |
| Normalizer.SkipSpaceForward | src/valuesets/validators/enum_evaluator.py:195 | the first index at or after `k` that is not whitespace, everything skipped being whitespace |
| Normalizer.SkipSpaceBackward | src/valuesets/validators/enum_evaluator.py:195 | the last index at or before `k` that does not follow whitespace, everything skipped being whitespace |
| Normalizer.DropLeadingSpace | src/valuesets/validators/enum_evaluator.py:195 | the result is a suffix of the input that does not start with whitespace, and everything dropped is whitespace |
| Normalizer.DropTrailingSpace | src/valuesets/validators/enum_evaluator.py:195 | the result is a prefix of the input that does not end with whitespace, and everything dropped is whitespace |
| Normalizer.Strip | src/valuesets/validators/enum_evaluator.py:195 | the result is a slice of the input with only whitespace cut off before and after it, and has no whitespace at either end; the characters that are not whitespace are those of the input, in order |
| Normalizer.Collapse | src/valuesets/validators/enum_evaluator.py:194 | empty exactly for empty input; a leading whitespace run becomes one space; no two spaces in a row; the characters that are not whitespace are those of the input, in order |
| Normalizer.Lower | src/valuesets/validators/enum_evaluator.py:195 | same length, each character lower-cased |
| Normalizer.Normalize | src/valuesets/validators/enum_evaluator.py:184-195 | empty input gives `""`; the output holds only `[a-z0-9 ]` with no leading, trailing or doubled space; with its spaces taken out it is exactly the input's ASCII letters and digits, in order and lower-cased |
| Normalizer.CollapseSplit | src/valuesets/validators/enum_evaluator.py:194 | a whitespace run between two texts becomes exactly one space there: collapsing `a + w + b` gives the collapse of `a`, one space, then the collapse of `b` |
| Normalizer.StripSplit | src/valuesets/validators/enum_evaluator.py:195 | stripping two texts joined by one space strips each text on its own and keeps the space between them |
| Normalizer.NormalizeSplit | src/valuesets/validators/enum_evaluator.py:184-195 | a run without letters or digits between a text ending and a text starting with a letter or digit normalises to one space between the two texts' own normalisations |
| Normalizer.NormalizeLetter | src/valuesets/validators/enum_evaluator.py:184-195 | a single ASCII letter or digit normalises to itself, lower-cased |
| Normalizer.TwoLetters | src/valuesets/validators/enum_evaluator.py:184-195 | two one-letter words around a tab, two spaces or a hyphen normalise to the lower-cased letters with one space between them |
| Normalizer.CollapseOfReplaced | src/valuesets/validators/enum_evaluator.py:192-194 | after the first two substitutions only spaces, ASCII letters and digits remain |
| Normalizer.StripKeepsText | src/valuesets/validators/enum_evaluator.py:195 | stripping a string of spaces, letters and digits without doubled spaces leaves no space at either end and keeps the other two properties |
| Normalizer.LowerOfStripped | src/valuesets/validators/enum_evaluator.py:195 | lower-casing a stripped, collapsed string of spaces, letters and digits yields a canonical string |
| Normalizer.CollapseFixed | src/valuesets/validators/enum_evaluator.py:194 | collapsing a string without whitespace runs changes nothing |
| Normalizer.RestartsAtText | src/valuesets/validators/enum_evaluator.py:194 | after a single whitespace character, dropping leading whitespace drops just that one |
| Normalizer.ReplaceFixed | src/valuesets/validators/enum_evaluator.py:192 | the non-word substitution changes nothing in a string of spaces, ASCII letters and digits |
| Normalizer.StripFixed | src/valuesets/validators/enum_evaluator.py:195 | stripping changes nothing when both ends are ASCII letters or digits |
| Normalizer.LowerFixed | src/valuesets/validators/enum_evaluator.py:195 | lower-casing changes nothing in a string of `[a-z0-9 ]` |
| Normalizer.CanonicalIsFixed | src/valuesets/validators/enum_evaluator.py:184-195 | normalisation leaves every canonical string unchanged |
| Normalizer.NormalizeIdempotent | src/valuesets/validators/enum_evaluator.py:184-195 | normalising twice equals normalising once |
| Normalizer.ReplaceKeepsAlnum | src/valuesets/validators/enum_evaluator.py:192 | after the non-word substitution, the characters that are not whitespace are exactly the input's ASCII letters and digits, in order |
| Normalizer.LowerKeepsText | src/valuesets/validators/enum_evaluator.py:195 | lower-casing commutes with taking out the whitespace |
| Normalizer.NormalizeIgnoresPunctuation | src/valuesets/validators/enum_evaluator.py:184-195 | replacing a character outside `[a-zA-Z0-9\s]` by a space leaves the normalisation unchanged |
| Normalizer.ReplaceOfLower | src/valuesets/validators/enum_evaluator.py:192-195 | the non-word substitution commutes with lower-casing |
| Normalizer.CollapseOfLower | src/valuesets/validators/enum_evaluator.py:194-195 | collapsing whitespace commutes with lower-casing |
| Normalizer.StripOfLower | src/valuesets/validators/enum_evaluator.py:195 | stripping commutes with lower-casing |
| Normalizer.NormalizeIgnoresCase | src/valuesets/validators/enum_evaluator.py:184-195 | normalising the lower-cased input gives the same result as normalising the input |
| Normalizer.SameUpToCase | src/valuesets/validators/enum_evaluator.py:184-195 | two strings that differ only in ASCII case normalise alike |
| Schema.MappingCount | src/valuesets/validators/enum_evaluator.py:302-305 | the number of values with a truthy meaning is at most the number of values |
| Results.OfSeverity | src/valuesets/validators/enum_evaluator.py:89-91 | the issues of one severity: no longer than the list, all of that severity and from the list, and every such issue of the list is in it |
| Results.OfSeverityAppend | src/valuesets/validators/enum_evaluator.py:89-91 | filtering a concatenation is concatenating the filtered parts |
| Results.HasSeverity | src/valuesets/validators/enum_evaluator.py:74-80 | true exactly when some issue has that severity |
| Results.HasErrors | src/valuesets/validators/enum_evaluator.py:74-76 | true exactly when some issue is an ERROR, that is when the ERROR filter is non-empty |
| Results.HasWarnings | src/valuesets/validators/enum_evaluator.py:78-80 | true exactly when some issue is a WARNING, that is when the WARNING filter is non-empty |
| Aliases.AnnotationForm | src/valuesets/validators/enum_evaluator.py:225-229 | a wrapped annotation contributes its `.value`; a plain one contributes its text when that is non-empty |
| Aliases.AcceptedForms | src/valuesets/validators/enum_evaluator.py:207-231 | contains the value name, a truthy title, every alias, every truthy literal form, and the form of each present alias annotation among the four keys |
| Aliases.AcceptedFormsOnly | src/valuesets/validators/enum_evaluator.py:207-231 | the accepted forms contain nothing besides those |
| Aliases.ExtractAliases | src/valuesets/validators/enum_evaluator.py:197-231 | the set built step by step is exactly the accepted forms |
| Resolution.BeforeColon | src/valuesets/validators/enum_evaluator.py:146 | the part before the first colon: a prefix of the CURIE without a colon, followed by a colon when one exists |
| Resolution.Prefix | src/valuesets/validators/enum_evaluator.py:146 | present exactly when the CURIE has a colon, and then as long as the CURIE's text before its first colon |
| Resolution.PrefixChars | src/valuesets/validators/enum_evaluator.py:146 | the prefix is that text, lower-cased character by character |
| Resolution.Initial | src/valuesets/validators/enum_evaluator.py:101-130 | an empty cache exactly when caching is on; an empty table in dynamic mode or without OAK; otherwise `'_default'` is present exactly when the configured adapter opens; the state is well formed |
| Resolution.OpenForPrefix | src/valuesets/validators/enum_evaluator.py:151-164 | the prefix's own database if it opens, else the merged database if it opens, else a `None` tombstone |
| Resolution.SelectAdapter | src/valuesets/validators/enum_evaluator.py:145-169 | in dynamic mode with a non-empty prefix, the prefix's entry is built only when missing and then selected; otherwise the `'_default'` entry, if any, is selected and nothing changes |
| Resolution.Resolve | src/valuesets/validators/enum_evaluator.py:132-182 | a cache hit returns the cached value (a cached `None` too) and changes nothing; afterwards the cache maps the CURIE to the returned label; table entries are never replaced and only the CURIE's prefix may be added; the backend is asked at most once, and always when a label comes back on a miss; a tombstoned prefix and a missing `'_default'` give `None`; on a miss the label is what the selected adapter's lookup returns (in dynamic mode the prefix's own database, else the merged one, else `None`; otherwise the `'_default'` adapter, else `None`), and a dynamic-mode miss whose prefix has a database always asks the backend; well-formedness is preserved |
| Resolution.ResolveMany | src/valuesets/validators/enum_evaluator.py:132-182 | successive calls: one label per CURIE, the cache keys grow by exactly the CURIEs resolved, existing table entries stay, well-formedness is preserved |
| Resolution.ResolveManyAppend | src/valuesets/validators/enum_evaluator.py:132-182 | resolving `a + b` is resolving `a` and then `b` from the state `a` left |
| Resolution.CachedCurieLookedUpOnce | src/valuesets/validators/enum_evaluator.py:138-182 | with caching on, no CURIE is passed to the backend's label lookup more than once over any sequence of calls |
| Resolution.CachedCurieLookedUpExactlyOnce | src/valuesets/validators/enum_evaluator.py:138-182 | with caching on in dynamic mode, an uncached CURIE whose prefix has a database is passed to the backend's label lookup exactly once over any sequence of calls containing it |
| Resolution.ConstructionAtMostOncePerPrefix | src/valuesets/validators/enum_evaluator.py:149-166 | over any sequence of calls, adapter construction is attempted at most once per prefix, and never for a prefix already in the table |
| Resolution.TombstoneStep | src/valuesets/validators/enum_evaluator.py:159-172 | one call: a tombstoned prefix stays tombstoned, and a CURIE with that prefix gets `None` |
| Resolution.TombstoneIsSticky | src/valuesets/validators/enum_evaluator.py:149-172 | once both adapters of a prefix failed, every later CURIE with that prefix gets `None` and the tombstone stays |
| Validation.NormalizedForms | src/valuesets/validators/enum_evaluator.py:258 | exactly the normalisations of the accepted forms: every form's normalisation is in the set, everything in it is some form's normalisation, and all of it is canonical |
| Validation.Matches | src/valuesets/validators/enum_evaluator.py:259-269 | a label matches exactly when it is non-empty and some accepted form normalises to what it normalises to; a non-empty accepted form always matches itself |
| Validation.CaseVariantMatches | src/valuesets/validators/enum_evaluator.py:258-269 | a non-empty label differing from an accepted form only in ASCII case matches |
| Validation.RedMatchesRED | src/valuesets/validators/enum_evaluator.py:258-269 | the label `Red` matches the value name `RED` |
| Validation.SingleForm | src/valuesets/validators/enum_evaluator.py:258-269 | against one accepted form, a non-empty label matches exactly when both normalise to the same string |
| Validation.CrimsonIsNotRed | src/valuesets/validators/enum_evaluator.py:184-195 | `Crimson` and `RED` normalise to different strings |
| Validation.CrimsonMismatchesRED | src/valuesets/validators/enum_evaluator.py:266-280 | the label `Crimson` does not match the value `RED`, and outside strict mode it gives one WARNING carrying `Crimson` and the accepted set `{"RED"}` |
| Validation.NoLabelIsInfo | src/valuesets/validators/enum_evaluator.py:255-264 | a label that cannot be retrieved for `X:1` gives exactly one INFO issue with meaning `X:1` and no labels |
| Validation.Classify | src/valuesets/validators/enum_evaluator.py:254-281 | no issue exactly when a label was found and its normalisation is among the normalised accepted forms (an empty label never is); INFO exactly when no label was found, with meaning set and no labels; otherwise ERROR in strict mode or WARNING, with expected label the value name, actual label the label, and the accepted forms in the message |
| Validation.ValueOutcome | src/valuesets/validators/enum_evaluator.py:242-281 | a value without a truthy meaning gives no issue and changes nothing; otherwise the resolver step is `get_ontology_label` of the meaning, and any issue describes the value |
| Validation.ValueOutcomeClassifies | src/valuesets/validators/enum_evaluator.py:242-281 | a mapped value's outcome is the classification of the label its meaning resolves to: an issue exactly when that label is absent or does not match, carrying that label, INFO exactly when it is absent |
| Validation.EnumOutcomes | src/valuesets/validators/enum_evaluator.py:237-283 | one outcome per value, in order; none for values without a mapping; each issue describes its own value |
| Validation.EnumOutcomesStep | src/valuesets/validators/enum_evaluator.py:239-283 | one more value appends its outcome, and its issue, if any, follows the issues so far |
| Validation.OutcomeAt | src/valuesets/validators/enum_evaluator.py:239-283 | the outcome of value `i` is its own step from the state the values before it left |
| Validation.LabelAt | src/valuesets/validators/enum_evaluator.py:244 | the label value `i`'s meaning resolves to when the loop reaches it: resolving it after all earlier meanings |
| Validation.MismatchIsReported | src/valuesets/validators/enum_evaluator.py:244-281 | a mapped value whose label is absent or does not match is reported, with that label, and its issue is among the issues returned; a matching one is not reported |
| Validation.Present | src/valuesets/validators/enum_evaluator.py:237-283 | the issues among the outcomes are no more than the outcomes |
| Validation.PresentAppend | src/valuesets/validators/enum_evaluator.py:237-283 | the issues of concatenated outcomes are the concatenated issues, so issue order follows value order |
| Validation.PresentFrom | src/valuesets/validators/enum_evaluator.py:237-283 | every reported issue is the outcome of one of the values |
| Validation.PresentHas | src/valuesets/validators/enum_evaluator.py:237-283 | every issue among the outcomes is reported |
| Validation.IssuesDescribeValues | src/valuesets/validators/enum_evaluator.py:242-281 | each issue of `validate_enum` names a value with a truthy meaning and carries that meaning; its actual label is the label that meaning resolved to, it is INFO exactly when that label is absent, and otherwise it is ERROR or WARNING by strict mode with the value name as expected label and a label that does not match |
| Validation.AtMostOneIssuePerMapping | src/valuesets/validators/enum_evaluator.py:239-283 | at most one issue per value with a mapping |
| Validation.Meanings | src/valuesets/validators/enum_evaluator.py:242-249 | one CURIE per mapped value |
| Validation.EnumOutcomesFollowResolver | src/valuesets/validators/enum_evaluator.py:242-249 | validating an enum leaves the resolver exactly as resolving its truthy meanings in order does |
| Validation.TotalMappings | src/valuesets/validators/enum_evaluator.py:296-305 | mappings counted over all enums are at most the values counted |
| Validation.FailureIssue | src/valuesets/validators/enum_evaluator.py:313-319 | an ERROR issue carrying the failure reason, with no meaning and no labels |
| Validation.Tally | src/valuesets/validators/enum_evaluator.py:297-309 | one more enum: its issues appended after the earlier ones, one more enum counted, its values and its mapped values added |
| Validation.EnumIssues | src/valuesets/validators/enum_evaluator.py:299-309 | an enum contributes at most one issue per mapped value |
| Validation.EnumsRun | src/valuesets/validators/enum_evaluator.py:289-310 | every enum is counted, values are counted by `len(permissible_values)`, mappings by truthy meanings, and issues <= mappings <= values |
| Validation.EnumsRunStep | src/valuesets/validators/enum_evaluator.py:296-309 | one more enum adds its own counts and issues to the counts so far |
| Validation.SchemaRun | src/valuesets/validators/enum_evaluator.py:285-322 | a schema that does not load gives exactly the one synthetic `<schema>`/`<error>` ERROR, zero counters and an untouched resolver; a loaded one gives the enum counters |
| Validation.LoadFailureIsOneError | src/valuesets/validators/enum_evaluator.py:311-320 | a load failure has errors, no warnings, and exactly one error |
| Validation.BatchRun | src/valuesets/validators/enum_evaluator.py:420-426 | one result per file |
| Validation.BatchKeepsEveryFile | src/valuesets/validators/enum_evaluator.py:420-426 | each result carries its file's path; a file that does not load yields its single synthetic ERROR and no enums, and the others are still validated |
| Validation.BatchResultAt | src/valuesets/validators/enum_evaluator.py:420-426 | the result of file `i` is exactly that file's own schema validation, run by the evaluator in the state the files before it left |
| Validation.EnumsRunFollowsResolver | src/valuesets/validators/enum_evaluator.py:296-309 | validating a schema leaves the resolver as resolving all its truthy meanings in order does |
| Validation.BatchRunFollowsResolver | src/valuesets/validators/enum_evaluator.py:420-426 | validating many files with one evaluator leaves the resolver as resolving all their meanings in order does |
| Validation.BatchLooksUpEachCurieOnce | src/valuesets/validators/enum_evaluator.py:138-182 | with caching on, a whole directory run asks the backend for each CURIE's label at most once, and in dynamic mode exactly once for a meaning of the run whose prefix has a database |
| Evaluator.CountMappings | src/valuesets/validators/enum_evaluator.py:302-305 | the counting loop computes the number of mapped values |
| Evaluator.EnumEvaluator.constructor | src/valuesets/validators/enum_evaluator.py:101-130 | the new evaluator's cache and table are the initial resolver state, and it is valid |
| Evaluator.EnumEvaluator.GetLabel | src/valuesets/validators/enum_evaluator.py:132-182 | the returned label and the new cache and table are exactly one resolver step from the old ones, and validity is kept |
| Evaluator.EnumEvaluator.CheckValue | src/valuesets/validators/enum_evaluator.py:244-281 | one mapped value: the issue returned and the new resolver state are exactly that value's outcome from the old state |
| Evaluator.EnumEvaluator.ValidateEnum | src/valuesets/validators/enum_evaluator.py:233-283 | the issues appended in the loop are the present outcomes of the values, in order, and the resolver ends where those outcomes leave it |
| Evaluator.EnumEvaluator.CheckEnum | src/valuesets/validators/enum_evaluator.py:296-309 | one loop iteration adds exactly the enum's counts and issues |
| Evaluator.EnumEvaluator.ValidateEnums | src/valuesets/validators/enum_evaluator.py:291-310 | the counters and issues built in place equal the enum-run specification |
| Evaluator.EnumEvaluator.ValidateSchema | src/valuesets/validators/enum_evaluator.py:285-322 | the result and the new resolver state equal the schema-run specification, load failure included |
| Evaluator.EnumEvaluator.ValidateBatch | src/valuesets/validators/enum_evaluator.py:420-426 | the results of directory mode's loop equal the batch specification, with one evaluator shared by all files |
| Cli.FileExitCode | src/valuesets/validators/enum_evaluator.py:372-409 | 0 or 1, and 1 exactly when there are errors, or warnings in strict mode |
| Cli.TotalOf | src/valuesets/validators/enum_evaluator.py:432-433 | the directory total of a severity is at least each file's count of that severity |
| Cli.TotalPositive | src/valuesets/validators/enum_evaluator.py:432-433 | a directory total of a severity is positive exactly when some file has an issue of that severity |
| Cli.DirExitCode | src/valuesets/validators/enum_evaluator.py:432-482 | 0 or 1, and 1 exactly when some file has errors, or in strict mode some file has warnings |
| Cli.DirOfOneFile | src/valuesets/validators/enum_evaluator.py:436-482 | a directory with one schema exits as that file would |
| Cli.FileWarningListing | src/valuesets/validators/enum_evaluator.py:401-407 | nothing in strict mode; otherwise at most 300 warnings, the first ones in order, and shown plus "more" is the number of warnings, with "more" positive only when 300 are shown |
| Cli.WarningsOf | src/valuesets/validators/enum_evaluator.py:464 | the file's warnings in order, each tagged with the file's path |
| Cli.AllWarningsCount | src/valuesets/validators/enum_evaluator.py:433 | the warnings of all files number the directory's warning total |
| Cli.AllWarningsGrow | src/valuesets/validators/enum_evaluator.py:463-465 | the warnings of the first files come first in the directory's warnings |
| Cli.ListWarnings | src/valuesets/validators/enum_evaluator.py:465-472 | the inner loop lists the file's warnings until 100 are listed and stops there |
| Cli.DirWarningListing | src/valuesets/validators/enum_evaluator.py:459-476 | nothing in strict mode; otherwise the first `min(100, total)` warnings over all files in file order, and `total - 100` more when the total exceeds 100 |
| Cli.KeptFiles | src/valuesets/validators/enum_evaluator.py:413-414 | each found file outside `linkml_model` as many times as it was found, and no file whose path contains `linkml_model` |
| Cli.PathLeq | src/valuesets/validators/enum_evaluator.py:413 | a prefix of a path is ordered no later than it |
| Cli.PathLeqAntisymmetric | src/valuesets/validators/enum_evaluator.py:413 | two paths each ordered before the other are equal |
| Cli.PathLeqTransitive | src/valuesets/validators/enum_evaluator.py:413 | path order is transitive |
| Cli.PathLeqTotal | src/valuesets/validators/enum_evaluator.py:413 | path order is total |
| Cli.Insert | src/valuesets/validators/enum_evaluator.py:413 | inserting into a path-sorted list keeps it sorted and adds exactly the one file |
| Cli.SortByPath | src/valuesets/validators/enum_evaluator.py:413 | sorted by path and a permutation of its input |
| Cli.SchemaFiles | src/valuesets/validators/enum_evaluator.py:413-414 | the files directory mode validates are sorted by path and are a permutation of the kept files, hence exactly the found files outside `linkml_model` |
| Cli.Main | src/valuesets/validators/enum_evaluator.py:363-485 | 0 or 1; 1 without OAK, and 1 when the path is neither a file nor a directory; for a file, 1 exactly when its validation has an error or, under `--strict`, a warning; for a directory, 1 exactly when some validated file's result has an error or, under `--strict`, a warning |
| Cli.FileLoadFailureFails | src/valuesets/validators/enum_evaluator.py:368-409 | a schema file that does not load makes `main` exit 1 |
| Cli.DirLoadFailureFails | src/valuesets/validators/enum_evaluator.py:411-482 | a validated file in a directory that does not load makes `main` exit 1 |

## Left out

- OAK itself (`get_adapter`, `adapter.label`) is a foreign library. It is the abstract `Backend`, and connected-database behaviour is not modelled.
- `SchemaView` loading and `all_enums()` are a foreign library. The enums are an input, and "load fails" is the explicit alternative.
- Exceptions raised part-way through the enum loop of `validate_schema` are not modelled. With the backend's exceptions caught, only loading can fail, and the model assumes it fails before any enum is counted.
- Argument parsing, logging configuration, the environment-variable tweaks and verbose mode are not modelled, nor is all `print` output or `print_summary`. The listings are modelled as the issues they show, not as text.
- The message text of an issue is kept structured (`Message`). Python renders the expected-label set in an unspecified order.
- Filesystem access (`is_file`, `is_dir`, `rglob("*.yaml")`) is not modelled. The `*.yaml` files found under a directory are an input, and so is which kind of path the argument names.
- Directory mode's display name (`schema_path.name`) and its "in N file(s)" counts are presentation. Listed warnings carry the full path.
- Cli.PathLeqTotal, Cli.SortByPath: path order is string order with `/` ranked lowest, which agrees with `pathlib`'s component-wise order only for normalised paths (no repeated or trailing separators).
- Resolution.Prefix: lower-casing the prefix is ASCII-only; Python's `str.lower()` also maps non-ASCII letters.
- Aliases.AnnotationForm: a plain annotation value is a string; non-string falsy values (such as `0`) are not represented.
- Resolution.Resolve: an adapter object is taken to be truthy, as OAK adapters are; the `'_default'` fallback is proved to give `None` only while `'_default'` is not in the table.
- Resolution.CachedCurieLookedUpOnce, Validation.BatchLooksUpEachCurieOnce: "exactly once" is proved for dynamic mode with a database for the CURIE's prefix; outside dynamic mode only "at most once" is stated.
- Normalizer.IsSpace: follows the code points Python treats as whitespace in `\s` for `str` patterns; a lone surrogate, which Python strings can hold, is not a Dafny `char`.
