/**
 * The decisions `main` takes around the validator: which files of a directory
 * are validated and in which order, how many warnings are listed, and the
 * exit status. The printing itself is presentation and is not modelled.
 */
module Cli {
  import opened Wrappers
  import opened Schema
  import opened Results
  import opened Resolution
  import opened Validation

  /** How many warnings file mode lists (`LIMIT`). */
  const FileWarningCap := 300
  /** How many warnings directory mode lists, hard-coded in its loop. */
  const DirWarningCap := 100
  /** Files whose path contains this are skipped in directory mode. */
  const ExcludedPart := "linkml_model"

  function Min(a: int, b: int): int {
    if a <= b then a else b
  }

  // ---------------------------------------------------------------- exit codes

  /** File mode: success when clean, otherwise failure iff errors, or warnings under `--strict`. */
  function FileExitCode(res: ValidationResult, strict: bool): (code: int)
    ensures code == 0 || code == 1
    ensures code == 1 <==> HasErrors(res) || (strict && HasWarnings(res))
  {
    if !HasErrors(res) && !HasWarnings(res) then 0
    else if HasErrors(res) || (strict && HasWarnings(res)) then 1
    else 0
  }

  /** `sum(len([i for i in r.issues if i.severity == sev]) for r in results)`. */
  function TotalOf(results: seq<ValidationResult>, sev: Severity): (n: nat)
    ensures forall i :: 0 <= i < |results| ==> |OfSeverity(results[i].issues, sev)| <= n
    decreases |results|
  {
    if results == [] then 0
    else TotalOf(results[..|results| - 1], sev) + |OfSeverity(results[|results| - 1].issues, sev)|
  }

  /** A directory total is positive exactly when some file has an issue of that severity. */
  lemma {:induction false} TotalPositive(results: seq<ValidationResult>, sev: Severity)
    ensures TotalOf(results, sev) > 0 <==> exists i :: 0 <= i < |results| && HasSeverity(results[i].issues, sev)
    decreases |results|
  {
    if results != [] {
      var init := results[..|results| - 1];
      TotalPositive(init, sev);
      if TotalOf(init, sev) > 0 {
        var i :| 0 <= i < |init| && HasSeverity(init[i].issues, sev);
        assert results[i] == init[i];
      }
      if exists i :: 0 <= i < |results| && HasSeverity(results[i].issues, sev) {
        var i :| 0 <= i < |results| && HasSeverity(results[i].issues, sev);
        if i < |init| {
          assert init[i] == results[i];
        }
      }
    }
  }

  /** Directory mode: failure iff some file has an error, or, under `--strict`, a warning. */
  function DirExitCode(results: seq<ValidationResult>, strict: bool): (code: int)
    ensures code == 0 || code == 1
    ensures code == 1 <==>
      (exists i :: 0 <= i < |results| && HasErrors(results[i]))
      || (strict && exists i :: 0 <= i < |results| && HasWarnings(results[i]))
  {
    TotalPositive(results, Error);
    TotalPositive(results, Warning);
    var totalErrors := TotalOf(results, Error);
    var totalWarnings := TotalOf(results, Warning);
    if totalErrors == 0 && totalWarnings == 0 then 0
    else if totalErrors > 0 || (strict && totalWarnings > 0) then 1
    else 0
  }

  /** A directory holding one schema exits as that schema would on its own. */
  lemma DirOfOneFile(res: ValidationResult, strict: bool)
    ensures DirExitCode([res], strict) == FileExitCode(res, strict)
  {
    assert [res][0] == res;
  }

  // ------------------------------------------------------------ warning caps

  /** What a listing shows, and how many further items it only counts ("... and N more"). */
  datatype Listing<T> = Listing(shown: seq<T>, more: nat)

  /** File mode's warning listing: none under `--strict`, else the first `LIMIT` warnings. */
  function FileWarningListing(res: ValidationResult, strict: bool): (r: Listing<Issue>)
    ensures strict ==> r.shown == [] && r.more == 0
    ensures |r.shown| <= FileWarningCap
    ensures !strict ==> var ws := OfSeverity(res.issues, Warning);
      && r.shown <= ws
      && |r.shown| + r.more == |ws|
      && (r.more > 0 ==> |r.shown| == FileWarningCap)
  {
    var ws := OfSeverity(res.issues, Warning);
    if strict || ws == [] then Listing([], 0)
    else Listing(ws[..Min(|ws|, FileWarningCap)], if |ws| > FileWarningCap then |ws| - FileWarningCap else 0)
  }

  /** A warning of directory mode, with the path of the schema it came from. */
  datatype FileWarning = FileWarning(path: string, issue: Issue)

  /** One file's warnings, in order. */
  function WarningsOf(res: ValidationResult): (r: seq<FileWarning>)
    ensures |r| == |OfSeverity(res.issues, Warning)|
    ensures forall k :: 0 <= k < |r| ==>
      r[k].path == res.schemaPath && r[k].issue == OfSeverity(res.issues, Warning)[k]
  {
    var ws := OfSeverity(res.issues, Warning);
    seq(|ws|, k requires 0 <= k < |ws| => FileWarning(res.schemaPath, ws[k]))
  }

  /** Every warning of a directory run, file after file. */
  function AllWarnings(results: seq<ValidationResult>): seq<FileWarning>
    decreases |results|
  {
    if results == [] then []
    else AllWarnings(results[..|results| - 1]) + WarningsOf(results[|results| - 1])
  }

  lemma {:induction false} AllWarningsCount(results: seq<ValidationResult>)
    ensures |AllWarnings(results)| == TotalOf(results, Warning)
    decreases |results|
  {
    if results != [] {
      AllWarningsCount(results[..|results| - 1]);
    }
  }

  /** The warnings of the first `k` files come first among all of them. */
  lemma {:induction false} AllWarningsGrow(results: seq<ValidationResult>, k: nat)
    requires k <= |results|
    ensures AllWarnings(results[..k]) <= AllWarnings(results)
    decreases |results|
  {
    if k == |results| {
      assert results[..k] == results;
    } else {
      var init := results[..|results| - 1];
      assert init[..k] == results[..k];
      AllWarningsGrow(init, k);
    }
  }

  /** The warnings of file `i` follow those of the files before it. */
  lemma AllWarningsAt(results: seq<ValidationResult>, i: nat)
    requires i < |results|
    ensures AllWarnings(results[..i]) + WarningsOf(results[i]) <= AllWarnings(results)
  {
    assert results[..i + 1][..i] == results[..i];
    AllWarningsGrow(results, i + 1);
  }

  /**
   * One pass of directory mode's inner loop: lists the file's warnings while
   * fewer than 100 have been listed, and stops at the first one over.
   */
  method ListWarnings(shown: seq<FileWarning>, warningCount: nat, warnings: seq<FileWarning>)
    returns (shown': seq<FileWarning>, warningCount': nat)
    requires warningCount == |shown| <= DirWarningCap
    ensures warningCount' == |shown'|
    ensures shown' == (shown + warnings)[..Min(DirWarningCap, |shown| + |warnings|)]
  {
    shown', warningCount' := shown, warningCount;
    var j := 0;
    while j < |warnings|
      invariant 0 <= j <= |warnings|
      invariant warningCount' == |shown'| == Min(DirWarningCap, |shown| + j)
      invariant shown' == (shown + warnings)[..warningCount']
    {
      if warningCount' < DirWarningCap {
        shown' := shown' + [warnings[j]];
        warningCount' := warningCount' + 1;
      } else {
        break;
      }
      j := j + 1;
    }
  }

  /**
   * Directory mode's warning listing: the first 100 warnings over all files in
   * file order, and how many more there are; none under `--strict`.
   */
  method DirWarningListing(results: seq<ValidationResult>, strict: bool) returns (listing: Listing<FileWarning>)
    ensures strict ==> listing.shown == [] && listing.more == 0
    ensures !strict ==> var all := AllWarnings(results);
      && listing.shown == all[..Min(|all|, DirWarningCap)]
      && listing.more == (if |all| > DirWarningCap then |all| - DirWarningCap else 0)
  {
    listing := Listing([], 0);
    var totalWarnings := TotalOf(results, Warning);
    AllWarningsCount(results);
    if totalWarnings == 0 || strict {
      return;
    }
    ghost var all := AllWarnings(results);
    var shown: seq<FileWarning> := [];
    var warningCount := 0;
    var i := 0;
    while i < |results|
      invariant 0 <= i <= |results|
      invariant warningCount == |shown| < DirWarningCap
      invariant shown == AllWarnings(results[..i])
    {
      AllWarningsAt(results, i);
      shown, warningCount := ListWarnings(shown, warningCount, WarningsOf(results[i]));
      if warningCount >= DirWarningCap {
        assert shown == all[..DirWarningCap];
        break;
      }
      assert results[..i + 1][..i] == results[..i];
      i := i + 1;
    }
    AllWarningsGrow(results, i);
    assert results[..|results|] == results;
    listing := Listing(shown, if totalWarnings > DirWarningCap then totalWarnings - DirWarningCap else 0);
  }

  // -------------------------------------------------------------- file order

  /** `sub in s`, for strings. */
  predicate Contains(s: string, sub: string)
    decreases |s|
  {
    sub <= s || (s != [] && Contains(s[1..], sub))
  }

  /** The `*.yaml` files found under the directory that are validated. */
  function KeptFiles(found: seq<SchemaFile>): (r: seq<SchemaFile>)
    ensures |r| <= |found|
    ensures forall f :: multiset(r)[f] == if Contains(f.path, ExcludedPart) then 0 else multiset(found)[f]
    ensures forall f :: f in r <==> f in found && !Contains(f.path, ExcludedPart)
    decreases |found|
  {
    if found == [] then []
    else
      var last := found[|found| - 1];
      assert found == found[..|found| - 1] + [last];
      KeptFiles(found[..|found| - 1]) + (if Contains(last.path, ExcludedPart) then [] else [last])
  }

  /** The rank of a character in path order: the separator comes before every other character. */
  function Rank(c: char): int {
    if c == '/' then -1 else c as int
  }

  /**
   * Path order: component by component, each compared by code point, which on
   * normalised paths is the string order with '/' ranked lowest.
   */
  predicate PathLeq(a: string, b: string)
    ensures a <= b ==> PathLeq(a, b)
    decreases |a|
  {
    a == [] || (b != [] && (Rank(a[0]) < Rank(b[0]) || (a[0] == b[0] && PathLeq(a[1..], b[1..]))))
  }

  /** Two paths each ordered before the other are the same path. */
  lemma {:induction false} PathLeqAntisymmetric(a: string, b: string)
    requires PathLeq(a, b) && PathLeq(b, a)
    ensures a == b
    decreases |a|
  {
    if a != [] {
      assert b != [] && a[0] == b[0];
      PathLeqAntisymmetric(a[1..], b[1..]);
      assert a == [a[0]] + a[1..] && b == [b[0]] + b[1..];
    }
  }

  lemma {:induction false} PathLeqTransitive(a: string, b: string, c: string)
    requires PathLeq(a, b) && PathLeq(b, c)
    ensures PathLeq(a, c)
    decreases |a|
  {
    if a != [] && a[0] == b[0] && b[0] == c[0] {
      PathLeqTransitive(a[1..], b[1..], c[1..]);
    }
  }

  lemma {:induction false} PathLeqTotal(a: string, b: string)
    ensures PathLeq(a, b) || PathLeq(b, a)
    decreases |a|
  {
    if a != [] && b != [] && a[0] == b[0] {
      PathLeqTotal(a[1..], b[1..]);
    }
  }

  predicate SortedByPath(files: seq<SchemaFile>) {
    forall i :: 0 < i < |files| ==> PathLeq(files[i - 1].path, files[i].path)
  }

  function Insert(f: SchemaFile, files: seq<SchemaFile>): (r: seq<SchemaFile>)
    requires SortedByPath(files)
    ensures SortedByPath(r)
    ensures multiset(r) == multiset(files) + multiset{f}
    ensures r[0] == f || (files != [] && r[0] == files[0])
    decreases |files|
  {
    if files == [] || PathLeq(f.path, files[0].path) then [f] + files
    else
      PathLeqTotal(f.path, files[0].path);
      var rest := Insert(f, files[1..]);
      assert files == [files[0]] + files[1..];
      [files[0]] + rest
  }

  /** `sorted(...)` over the kept files: ordered by path, and the same files. */
  function SortByPath(files: seq<SchemaFile>): (r: seq<SchemaFile>)
    ensures SortedByPath(r)
    ensures multiset(r) == multiset(files)
    decreases |files|
  {
    if files == [] then []
    else
      assert files == [files[0]] + files[1..];
      Insert(files[0], SortByPath(files[1..]))
  }

  /** The files directory mode validates, in the order it validates them. */
  function SchemaFiles(found: seq<SchemaFile>): (r: seq<SchemaFile>)
    ensures SortedByPath(r)
    ensures multiset(r) == multiset(KeptFiles(found))
    ensures forall f :: f in r <==> f in found && !Contains(f.path, ExcludedPart)
  {
    var kept := KeptFiles(found);
    var r := SortByPath(kept);
    assert forall f :: f in r <==> f in multiset(r);
    r
  }

  // -------------------------------------------------------------------- main

  /** What the path argument names: one schema file, a directory's `*.yaml` files, or neither. */
  datatype Target = FileTarget(file: SchemaFile) | DirTarget(found: seq<SchemaFile>) | NoTarget

  /** `main`'s exit status, with one evaluator serving every file it validates. */
  function Main(cfg: Config, be: Backend, target: Target): (code: int)
    ensures code == 0 || code == 1
    ensures !be.hasOak ==> code == 1
    ensures target.NoTarget? ==> code == 1
    ensures be.hasOak && target.FileTarget? ==>
      var res := SchemaRun(cfg, be, Initial(cfg, be), target.file.path, target.file.src).0;
      code == 1 <==> HasErrors(res) || (cfg.strictMode && HasWarnings(res))
    ensures be.hasOak && target.DirTarget? ==>
      var results := BatchRun(cfg, be, Initial(cfg, be), SchemaFiles(target.found)).0;
      code == 1 <==>
        (exists i :: 0 <= i < |results| && HasErrors(results[i]))
        || (cfg.strictMode && exists i :: 0 <= i < |results| && HasWarnings(results[i]))
  {
    if !be.hasOak then 1
    else match target
      case FileTarget(f) =>
        FileExitCode(SchemaRun(cfg, be, Initial(cfg, be), f.path, f.src).0, cfg.strictMode)
      case DirTarget(found) =>
        DirExitCode(BatchRun(cfg, be, Initial(cfg, be), SchemaFiles(found)).0, cfg.strictMode)
      case NoTarget => 1
  }

  /** A schema file that does not load makes `main` fail. */
  lemma FileLoadFailureFails(cfg: Config, be: Backend, path: string, reason: string)
    requires be.hasOak
    ensures Main(cfg, be, FileTarget(SchemaFile(path, LoadFailed(reason)))) == 1
  {
    var res := SchemaRun(cfg, be, Initial(cfg, be), path, LoadFailed(reason)).0;
    LoadFailureIsOneError(cfg, be, Initial(cfg, be), path, reason);
    assert HasErrors(res);
  }

  /** A directory containing a validated schema that does not load makes `main` fail. */
  lemma DirLoadFailureFails(cfg: Config, be: Backend, found: seq<SchemaFile>, k: nat)
    requires be.hasOak
    requires k < |found| && found[k].src.LoadFailed? && !Contains(found[k].path, ExcludedPart)
    ensures Main(cfg, be, DirTarget(found)) == 1
  {
    var files := SchemaFiles(found);
    assert found[k] in files;
    var i :| 0 <= i < |files| && files[i] == found[k];
    var results := BatchRun(cfg, be, Initial(cfg, be), files).0;
    BatchKeepsEveryFile(cfg, be, Initial(cfg, be), files);
    assert ReportsFile(results[i], files[i]);
    assert results[i].issues == [FailureIssue(found[k].src.reason)];
    assert results[i].issues[0].severity == Error;
    assert HasErrors(results[i]);
  }
}
