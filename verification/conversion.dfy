/** The conversion run (Form1.cs, `btnConvert_Click`): validates the assembly path,
    resolves the assembly's parts, then exports each part in the unique list once,
    advancing the progress bar per export and resetting it to 0 when the run ends.

    An exception from any step ends the run: the source catches it once, around the
    whole run, so a part that fails to export stops the parts after it. Dialogs,
    log lines and UI message pumping are not modelled; the writes to the progress
    bar's value are recorded in order. */
module Conversion {
  import opened Wrappers
  import opened Sequences
  import Text
  import Host
  import Resolver
  import Exporter

  const SelectFileMessage := "Lütfen bir SLDASM dosyası seçin."

  function FileNotFoundMessage(assemblyPath: string): string {
    "Dosya bulunamadı: " + assemblyPath
  }

  datatype Outcome =
    | Rejected(message: string) // the input check refused the path before anything ran
    | Failed(message: string)   // an exception ended the run
    | Completed

  /** Everything a run produced: its outcome, the resolver's result when it got one, the
      parts sent to export in order, the exports the host reported as done, and the
      values written to the progress bar in order. */
  datatype Run = Run(
    outcome: Outcome,
    resolution: Option<Resolver.Resolution>,
    attempts: seq<string>,
    exports: seq<Exporter.ExportRequest>,
    progressWrites: seq<int>)

  type PartHost = string -> Host.Session<Exporter.PartDocument>

  /** What exporting one part yields: the export the host performed, or the message of
      the exception that ends the run. */
  type Attempt = string -> Result<Exporter.ExportRequest>

  /** The export performed for each part is the one the per-part export yields. */
  ghost predicate ExportsMatch(exports: seq<Exporter.ExportRequest>, attempts: seq<string>, exportPart: Attempt)
    requires |exports| <= |attempts|
  {
    forall k :: 0 <= k < |exports| ==> exportPart(attempts[k]) == Ok(exports[k])
  }

  /** The loop over the unique part list with its processed-set guard. A part is added
      to the processed set only once its export succeeded; the first failure ends the
      loop. `progressWrites` are the values `progressBar.Value++` writes. */
  method ExportAll(parts: seq<string>, exportPart: Attempt)
    returns (attempts: seq<string>, exports: seq<Exporter.ExportRequest>, failure: Option<string>, progressWrites: seq<int>)
    ensures NoDuplicates(attempts)
    ensures attempts <= Dedup(parts)
    // the k-th value written to the bar is k + 1
    ensures progressWrites == Increments(|attempts|)
    ensures failure.None? ==> attempts == Dedup(parts) && |exports| == |attempts|
    ensures failure.Some? ==>
              |attempts| >= 1 && |exports| == |attempts| - 1 && exportPart(attempts[|exports|]) == Err(failure.value)
    ensures |exports| <= |attempts| && ExportsMatch(exports, attempts, exportPart)
    ensures failure.None? <==> forall p :: p in parts ==> exportPart(p).Ok?
  {
    attempts, exports, failure, progressWrites := ExportLoop(parts, exportPart);
    if failure.None? {
      EveryPartExported(parts, attempts, exports, exportPart);
    }
  }

  /** The loop itself: it stops either after the whole list, or at the first part whose
      export fails, which is a listed part. */
  method ExportLoop(parts: seq<string>, exportPart: Attempt)
    returns (attempts: seq<string>, exports: seq<Exporter.ExportRequest>, failure: Option<string>, progressWrites: seq<int>)
    ensures attempts <= Dedup(parts) && progressWrites == Increments(|attempts|)
    ensures |exports| <= |attempts| && ExportsMatch(exports, attempts, exportPart)
    ensures failure.None? ==> attempts == Dedup(parts) && |exports| == |attempts|
    ensures failure.Some? ==>
              && |attempts| >= 1 && |exports| == |attempts| - 1
              && attempts[|exports|] in parts && exportPart(attempts[|exports|]) == Err(failure.value)
  {
    attempts, exports, failure, progressWrites := [], [], None, [];
    var processed: set<string> := {};
    var progress := 0;
    var i := 0;
    while i < |parts|
      invariant 0 <= i <= |parts|
      invariant attempts == Dedup(parts[..i])
      invariant forall p :: p in processed <==> p in attempts
      invariant progress == |attempts| == |exports|
      invariant progressWrites == Increments(progress)
      invariant ExportsMatch(exports, attempts, exportPart)
    {
      var partPath := parts[i];
      assert parts[..i + 1] == parts[..i] + [partPath];
      DedupStep(parts[..i], partPath);
      if partPath !in processed {
        IncrementsStep(progress);
        progress := progress + 1;
        progressWrites := progressWrites + [progress];
        ExportsMatchAttempt(exports, attempts, partPath, exportPart);
        StoppedAtListedPart(parts, i, attempts + [partPath]);
        attempts := attempts + [partPath];
        var result := exportPart(partPath);
        if result.Err? {
          failure := Some(result.message);
          return;
        }
        ExportsMatchExport(exports, attempts, result.value, exportPart);
        exports := exports + [result.value];
        processed := processed + {partPath};
      }
      i := i + 1;
    }
    assert parts[..i] == parts;
  }

  /** Attempting one more part keeps the exports matched. */
  lemma ExportsMatchAttempt(exports: seq<Exporter.ExportRequest>, attempts: seq<string>, partPath: string, exportPart: Attempt)
    requires |exports| <= |attempts| && ExportsMatch(exports, attempts, exportPart)
    ensures ExportsMatch(exports, attempts + [partPath], exportPart)
  {
    forall k | 0 <= k < |exports|
      ensures exportPart((attempts + [partPath])[k]) == Ok(exports[k])
    {
      assert (attempts + [partPath])[k] == attempts[k];
    }
  }

  /** Recording the export of the last attempted part keeps the exports matched. */
  lemma ExportsMatchExport(exports: seq<Exporter.ExportRequest>, attempts: seq<string>, e: Exporter.ExportRequest, exportPart: Attempt)
    requires |exports| < |attempts| && ExportsMatch(exports, attempts, exportPart)
    requires exportPart(attempts[|exports|]) == Ok(e)
    ensures ExportsMatch(exports + [e], attempts, exportPart)
  {
    forall k | 0 <= k < |exports| + 1
      ensures exportPart(attempts[k]) == Ok((exports + [e])[k])
    {
      if k < |exports| {
        assert (exports + [e])[k] == exports[k];
      }
    }
  }

  /** When the loop stops at the part at index `i`, what it attempted so far is an
      initial run of the whole unique list, ending in that part. */
  lemma StoppedAtListedPart(parts: seq<string>, i: nat, attempts: seq<string>)
    requires i < |parts| && parts[i] !in Dedup(parts[..i]) && attempts == Dedup(parts[..i]) + [parts[i]]
    ensures attempts <= Dedup(parts) && attempts[|attempts| - 1] == parts[i]
  {
    assert parts[..i + 1][..i] == parts[..i];
    DedupPrefix(parts, i + 1);
  }

  lemma EveryPartExported(parts: seq<string>, attempts: seq<string>, exports: seq<Exporter.ExportRequest>, exportPart: Attempt)
    requires attempts == Dedup(parts) && |exports| == |attempts|
    requires ExportsMatch(exports, attempts, exportPart)
    ensures forall p :: p in parts ==> exportPart(p).Ok?
  {
    forall p | p in parts
      ensures exportPart(p).Ok?
    {
      var k := FirstIndex(attempts, p);
      assert exportPart(attempts[k]) == Ok(exports[k]);
    }
  }

  /** The values `1, 2, ..., n` that `n` increments of the progress bar write. */
  function Increments(n: nat): seq<int> {
    seq(n, k => k + 1)
  }

  lemma IncrementsStep(n: nat)
    ensures Increments(n + 1) == Increments(n) + [n + 1]
  {
    var longer, shorter := Increments(n + 1), Increments(n) + [n + 1];
    forall k | 0 <= k < n + 1
      ensures longer[k] == shorter[k]
    {
      if k < n {
        assert shorter[k] == Increments(n)[k];
      }
    }
  }

  /** What a run does with one part: open it through the host and export it into the
      output folder. */
  function PartAttempt(partHost: PartHost, outputFolder: string): Attempt {
    p => Exporter.ExportPart(partHost(p), p, outputFolder)
  }

  /** One press of the convert button. The host outcomes of opening the assembly and of
      opening each part, and which files exist, are inputs; `outputFolder` is the folder
      created beside the assembly. */
  method ConvertAssembly(assemblyPath: string, fileExists: string -> bool,
                         assembly: Host.Session<Resolver.AssemblyDocument>,
                         partHost: PartHost, outputFolder: string)
    returns (run: Run)
    ensures Text.IsNullOrWhiteSpace(assemblyPath) ==> run.outcome == Rejected(SelectFileMessage)
    ensures !Text.IsNullOrWhiteSpace(assemblyPath) && !fileExists(assemblyPath) ==>
              run.outcome == Rejected(FileNotFoundMessage(assemblyPath))
    ensures run.outcome.Rejected? <==> Text.IsNullOrWhiteSpace(assemblyPath) || !fileExists(assemblyPath)
    ensures run.outcome.Rejected? ==> run.attempts == [] && run.progressWrites == []
    // the progress bar ends at 0 on every path through the run
    ensures !run.outcome.Rejected? ==> |run.progressWrites| >= 1 && run.progressWrites[|run.progressWrites| - 1] == 0
    // a run that resolved the assembly keeps every progress value within [0, number of unique parts]
    ensures run.resolution.Some? ==>
              forall k :: 0 <= k < |run.progressWrites| ==> 0 <= run.progressWrites[k] <= |run.resolution.value.uniqueParts|
    ensures run.resolution.None? ==> run.attempts == [] && run.progressWrites in {[], [0]}
    // the bar is set to 0, advanced once per attempted part, and reset to 0
    ensures run.resolution.Some? ==> run.progressWrites == [0] + Increments(|run.attempts|) + [0]
    ensures run.resolution.Some? <==>
              !run.outcome.Rejected? && assembly.Opened? && assembly.doc.components.Some?
    // a failure to resolve the assembly carries the message of the check that failed
    ensures !run.outcome.Rejected? && run.resolution.None? ==> run.outcome == Failed(Resolver.ResolveFailure(assembly))
    ensures run.resolution.Some? ==>
              Resolver.IsResolutionOf(run.resolution.value, assembly.doc.components.value, fileExists)
    // each unique part is sent to export at most once, in the unique list's order
    ensures NoDuplicates(run.attempts)
    ensures run.resolution.Some? ==> run.attempts <= run.resolution.value.uniqueParts
    ensures |run.exports| <= |run.attempts| && ExportsMatch(run.exports, run.attempts, PartAttempt(partHost, outputFolder))
    ensures run.outcome.Completed? <==>
              && run.resolution.Some?
              && forall p :: p in run.resolution.value.uniqueParts ==> PartAttempt(partHost, outputFolder)(p).Ok?
    ensures run.outcome.Completed? ==> run.attempts == run.resolution.value.uniqueParts && |run.exports| == |run.attempts|
    // a resolved run that fails stopped at its last attempted part, whose message it reports
    ensures run.outcome.Failed? && run.resolution.Some? ==>
              && |run.attempts| >= 1
              && |run.exports| == |run.attempts| - 1
              && PartAttempt(partHost, outputFolder)(run.attempts[|run.exports|]) == Err(run.outcome.message)
  {
    if Text.IsNullOrWhiteSpace(assemblyPath) {
      return Run(Rejected(SelectFileMessage), None, [], [], []);
    }
    if !fileExists(assemblyPath) {
      return Run(Rejected(FileNotFoundMessage(assemblyPath)), None, [], [], []);
    }
    var resolved := Resolver.ResolveAssembly(assembly, fileExists);
    if resolved.Err? {
      // the exception skips the whole loop; `finally` writes 0
      return Run(Failed(resolved.message), None, [], [], [0]);
    }
    DedupOfDistinct(resolved.value.uniqueParts);
    run := ExportResolved(resolved.value, PartAttempt(partHost, outputFolder));
  }

  /** The part of a run after the assembly resolved: the progress bar is set to 0, the
      unique parts are exported in order until one fails, and the bar is reset to 0. */
  method ExportResolved(resolution: Resolver.Resolution, exportPart: Attempt) returns (run: Run)
    requires Dedup(resolution.uniqueParts) == resolution.uniqueParts
    ensures run.resolution == Some(resolution) && !run.outcome.Rejected?
    ensures run.progressWrites == [0] + Increments(|run.attempts|) + [0]
    ensures forall k :: 0 <= k < |run.progressWrites| ==> 0 <= run.progressWrites[k] <= |resolution.uniqueParts|
    ensures NoDuplicates(run.attempts) && run.attempts <= resolution.uniqueParts
    ensures |run.exports| <= |run.attempts| && ExportsMatch(run.exports, run.attempts, exportPart)
    ensures run.outcome.Completed? <==> forall p :: p in resolution.uniqueParts ==> exportPart(p).Ok?
    ensures run.outcome.Completed? ==> run.attempts == resolution.uniqueParts && |run.exports| == |run.attempts|
    ensures run.outcome.Failed? ==>
              |run.attempts| >= 1 && |run.exports| == |run.attempts| - 1
              && exportPart(run.attempts[|run.exports|]) == Err(run.outcome.message)
  {
    var uniqueParts := resolution.uniqueParts;
    var attempts, exports, failure, loopWrites := ExportAll(uniqueParts, exportPart);
    var outcome := if failure.Some? then Failed(failure.value) else Completed;
    // `progressBar.Value = 0` before the loop, the loop's increments, `progressBar.Value = 0` in `finally`
    var progressWrites := [0] + loopWrites + [0];
    assert |attempts| <= |uniqueParts| by {
      assert |Dedup(uniqueParts)| <= |uniqueParts|;
    }
    ProgressWithinBounds(|attempts|, |uniqueParts|);
    run := Run(outcome, Some(resolution), attempts, exports, progressWrites);
  }

  /** Framing the loop's increments `1, 2, ..., n` with the two resets to 0 keeps every
      written value within `[0, max]` when `n <= max`. */
  lemma ProgressWithinBounds(n: nat, max: int)
    requires n <= max
    ensures var writes := [0] + Increments(n) + [0];
            forall k :: 0 <= k < |writes| ==> 0 <= writes[k] <= max
  {
    var writes := [0] + Increments(n) + [0];
    forall k | 0 <= k < |writes|
      ensures 0 <= writes[k] <= max
    {
      if 0 < k < |writes| - 1 {
        assert writes[k] == Increments(n)[k - 1];
      }
    }
  }

  /** However often a part is used in the assembly, a run exports it at most once, and
      never more often than the assembly uses it; a run that went through the whole
      unique list exported every used part exactly once. */
  lemma ExportedAtMostOnce(run: Run, components: seq<Resolver.Occurrence>, fileExists: string -> bool, p: string)
    requires run.resolution.Some? && Resolver.IsResolutionOf(run.resolution.value, components, fileExists)
    requires run.attempts <= run.resolution.value.uniqueParts
    ensures multiset(run.attempts)[p] <= 1
    ensures p in run.resolution.value.counts ==> multiset(run.attempts)[p] <= run.resolution.value.counts[p]
    ensures run.attempts == run.resolution.value.uniqueParts && p in Resolver.QualifyingPaths(components, fileExists) ==>
              multiset(run.attempts)[p] == 1
  {
    var unique := run.resolution.value.uniqueParts;
    var paths := Resolver.QualifyingPaths(components, fileExists);
    assert forall i, j :: 0 <= i < j < |run.attempts| ==> run.attempts[i] == unique[i] && run.attempts[j] == unique[j];
    NoDuplicatesAtMostOnce(run.attempts, p);
    assert p in run.attempts ==> p in paths;
  }
}
