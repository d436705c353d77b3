# tekyaz7 conversion core in Dafny

tekyaz7 is a Windows Forms tool. It converts the parts of a SolidWorks assembly into
2D DWG drawings by driving SolidWorks through its automation interface. This project
models the decision logic of `Form1.cs` and proves properties about it:

- **Resolver** (`GetPartPathsFromAssembly`). It filters the assembly's component
  occurrences down to unsuppressed, existing `.SLDPRT` files. It lists each path once, in
  first-seen order, counts the uses of each path, and totals them.
- **Orientation** (`ExportPartToDWG`). It picks `*Right`, `*Top` or `*Front` from the first
  solid body's bounding box. The view looks along the thinnest axis, and ties go to
  Right, then Top.
- **SheetMetal** (`HasSheetMetalFeature`). It walks the feature tree and stops at the first
  `SheetMetal` feature.
- **ErrorCodes** (`GetErrorDescription`). It describes the host's open-error codes.
- **Paths**. It gives the output name `{outputFolder}\{part base name}.dwg`, which both
  export strategies share. `Path.GetFileName`, `GetFileNameWithoutExtension` and
  `Combine` are modelled with Windows separators.
- **Exporter** (`RunSolidWorksOperations` and the two `Export…ToDWG` methods). It chooses
  the strategy and the export request for each part.
- **Conversion** (`btnConvert_Click`). It checks the input, runs the resolver, and then
  runs the export loop with its processed-set guard and progress counter. The progress
  bar is reset to 0 in `finally`.

Everything the code gets from SolidWorks, the file system or the user is an input:

- the outcome of starting the host and opening a document (`Host.Session`);
- the component array;
- the feature type names;
- the bodies and their bounding boxes;
- whether `ExportToDWG2` reports success;
- a `fileExists` predicate;
- the output folder.

The shared modules are:

- `Wrappers`: `Result` carries the message of the exception the code would throw.
- `Sequences`: `Dedup` is the reference definition of "each element once, first-seen
  order".
- `Text`: the .NET string checks and `int` formatting the code relies on.

Where the code departs from what its design suggests, the model follows the code:

- **An export failure aborts the run.** One might expect a failed part to be logged and
  skipped. In the code, the exception from a part's export leaves the loop and is caught
  once for the whole run, so the remaining parts are not exported
  (`Conversion.ExportAll`, `Conversion.ConvertAssembly`).
- **The processed set holds successes only.** The code adds a part to the processed set
  only after a successful export, not when it is attempted. The unique list has no
  duplicates, so the guard never skips a part either way.
- **Paths are deduplicated as written.** No path is normalized. The code compares path
  strings exactly, with case significant (`List.Contains` and the `Dictionary` default
  comparer). So `C:\p\A.SLDPRT` and `C:\p\a.sldprt` are two parts.
- **A null box and a short box are one case.** A bounding box that is null or does not
  have exactly six values is refused with the same message. Non-finite values are not
  checked.
- **Output names can collide.** Output names depend only on the part's base name, so two
  unique parts with the same file name in different folders export to the same drawing,
  and the later one overwrites the earlier (`Paths.SameFileNameSameOutput`).

## Model

| member | source | states |
|---|---|---|
| Text.IsNullOrWhiteSpaceIffTrimmedEmpty | Form1.cs:36-40 | the blank-path check holds exactly when trimming the leading white space of the path leaves nothing |
| Text.EndsWithIgnoreCaseIffUpper | Form1.cs:170 | the ordinal case-insensitive suffix test holds exactly when the upper-cased path ends with the upper-cased suffix |
| Text.EndsWithIgnoreCaseOfAppend | Form1.cs:170 | a path that ends in any letter casing of `.SLDPRT` passes the suffix test, whatever precedes it |
| Resolver.QualifiesIffPartFile | Form1.cs:166-170 | a component occurrence is used exactly when it is a component, not suppressed, its file exists, and its upper-cased path ends in `.SLDPRT` |
| Resolver.QualifyingPathsMembers | Form1.cs:164-170 | a path is among the qualifying paths exactly when some component occurrence references it and is a component, unsuppressed, with a non-empty path to an existing file ending in `.SLDPRT` in any letter case |
| Resolver.CollectParts | Form1.cs:163-201 | the unique list is the first-seen deduplication of the qualifying paths (so it has no duplicates). The count map has exactly the unique paths as keys, and each count is the number of qualifying occurrences of that path. The total is the number of qualifying occurrences |
| Resolver.RecordOccurrence | Form1.cs:166-184 | one component extends the unique list only with a new qualifying path and adds one to that path's count (starting at 1). The list stays the deduplication, and the map stays the count, of the paths seen so far |
| Resolver.CountStep | Form1.cs:176-183 | incrementing an existing count or adding the path with count 1 keeps the map equal to the multiplicities of the extended path sequence |
| Resolver.SumCounts | Form1.cs:200 | `Values.Sum()` of a map that counts the qualifying paths, taken over its keys in any order, is the number of qualifying paths |
| Resolver.TotalIsSumOfCounts | Form1.cs:176-200 | the returned total equals the sum of the per-path counts |
| Resolver.UniquePartsInFirstSeenOrder | Form1.cs:172-175 | of two entries of the unique list, the earlier one was first used by an earlier qualifying occurrence |
| Resolver.ResolveFailure | Form1.cs:134-163 | an assembly that does not resolve fails with the open check's message, or, when it opened but has no component array, with the null-components message |
| Resolver.ResolveAssembly | Form1.cs:132-201 | resolution succeeds exactly when the host opened the document as an assembly with a non-null component array, and then yields a correct resolution. If the host was not found or not started, the open failed, or the model is not an assembly, it fails with that check's message |
| Sequences.DedupMultiplicitySum | Form1.cs:172-183 | the counts of the distinct paths add up to the number of qualifying occurrences |
| Sequences.NoDuplicatesAtMostOnce | Form1.cs:172-175 | a path occurs at most once in a duplicate-free list |
| Text.IntToStringRoundTrip | Form1.cs:358 | the decimal text written for an error code reads back as that code |
| ErrorCodes.ErrorDescription | Form1.cs:349-360 | codes 0 to 4 get one of the five fixed descriptions, and every other code gets none of them but starts with the unknown-code prefix |
| ErrorCodes.UnknownCodeReadsBack | Form1.cs:358 | for a code outside 0 to 4, the text after the unknown-code prefix reads back as the code |
| ErrorCodes.ErrorDescriptionInjective | Form1.cs:351-359 | different codes get different descriptions |
| Host.OpenDocument | Form1.cs:134-161 | opening yields the document exactly when the host opened it as the requested kind. A failed open reports a message ending in the description of the host's error code |
| Host.FailureMessageIdentifiesCheck | Form1.cs:134-161 | two failed opens of the same document kind with the same message failed the same check: host not found, host not started, open failed, or wrong document type |
| Orientation.BoxExtents | Form1.cs:289-298 | the extents exist exactly when the box is non-null with six values; each is the non-negative absolute difference of the opposite corner coordinates |
| Orientation.ChooseView | Form1.cs:300-313 | `*Right` exactly when dx ≤ dy and dx ≤ dz; `*Top` exactly when dy < dx and dy ≤ dz; `*Front` exactly when dz is strictly below both. The chosen axis has the minimal extent |
| Orientation.ViewNameInjective | Form1.cs:304-312 | the three views have distinct canonical names |
| Orientation.ChooseViewScaleInvariant | Form1.cs:296-313 | scaling the box by a positive factor does not change the view |
| Orientation.BoxExtentsTranslationAndCornerInvariant | Form1.cs:296-298 | moving the box and swapping its minimum and maximum corners leaves the extents unchanged |
| Orientation.ChooseViewIsFirstMinimal | Form1.cs:302-313 | the chosen view is the first of Right, Top, Front whose extent is the minimum |
| SheetMetal.FeaturesRead | Form1.cs:337-346 | the walk reads features up to and including the first `SheetMetal` one, or all of them when there is none; none read before it is `SheetMetal` |
| SheetMetal.HasSheetMetalFeature | Form1.cs:335-347 | returns true exactly when some feature's type name is exactly `SheetMetal` (false for no features), having read exactly the features up to the first match |
| SheetMetal.LaterFeaturesIgnored | Form1.cs:340-343 | once a sheet-metal feature is present, appended features change neither the answer nor the number of features read |
| Paths.FileName | Form1.cs:71 | the file name of a path has no separator and is a final segment of the path that starts right after a separator, right after a leading drive, or at the start of the path; a leading drive is never part of the name |
| Paths.FileNameWithoutExtension | Form1.cs:265 | the base name is the whole file name when it has no dot, and otherwise the part of the file name before its last dot; it has no separator |
| Paths.Combine | Form1.cs:266 | the joined path ends with the second path, is the second path itself when that is rooted, and, when both are non-empty and the second is not rooted, is the two paths joined directly when the first already ends in a separator and with one `\` between them when it does not |
| Paths.CombineUnderFirst | Form1.cs:266 | a second path that is not rooted is joined under the first, which is an initial segment of the result |
| Paths.OutputPath | Form1.cs:265-266 | the output path ends with the part's base name followed by `.dwg`, so it is always a `.dwg` file |
| Paths.OutputPathNaming | Form1.cs:318-319 | the output's file name is the part's base name plus `.dwg`, its base name is the part's base name, and it lies under the output folder, unless that base name itself starts with a drive prefix |
| Paths.SameFileNameSameOutput | Form1.cs:265-266 | parts with the same file name in any two folders get the same output path |
| Paths.FileNameAfterDirectory | Form1.cs:265 | the file name of `dir\name` is `name`, whatever the directory |
| Paths.CombineKeepsFileName | Form1.cs:266 | joining a plain file name onto a folder keeps it as the file name of the result, under the folder |
| Exporter.FirstBodyExtents | Form1.cs:282-298 | the extents exist exactly when the part has a solid body whose box has six values, and then they are the extents of the first body's box. No body fails with the no-body message, checked before the box, and a bad box fails with the box message. The extents are non-negative |
| Exporter.OnlyFirstBodyMatters | Form1.cs:288-289 | bodies after the first one do not change the measured extents |
| Exporter.ExportSheetMetal | Form1.cs:263-278 | a sheet-metal export succeeds exactly when the host's export succeeds, and writes the flat pattern to the shared output path. Otherwise it fails with the sheet-metal message |
| Exporter.ExportStandard | Form1.cs:280-333 | a standard export succeeds exactly when the first solid body has a six-value box and the host's export succeeds. It exports the view chosen from that box to the shared output path. A missing body or box fails with its own message, and a refused export with the standard-export message |
| Exporter.ExportPart | Form1.cs:204-261 | a part exports exactly when it opens as a part and its strategy can export it. The request names the part's own path as source. The flat-pattern strategy is chosen exactly for sheet-metal parts, and otherwise the view is the one chosen from the first body's box. A part that does not open fails with the open check's message; an opened part fails with the sheet-metal message, the body or box message, or the standard-export message, whichever step failed |
| Exporter.ExportPartOutputPath | Form1.cs:239-248 | whichever strategy a part gets, a successful export writes the shared output path derived from the part's path |
| Exporter.ExportIgnoresFeaturesAfterSheetMetal | Form1.cs:239-248 | features appended after a sheet-metal feature do not change a part's export |
| Exporter.SheetMetalNeedsNoGeometry | Form1.cs:239-244 | a sheet-metal part's export does not depend on its bodies or bounding boxes |
| Exporter.BothStrategiesShareOutput | Form1.cs:318-319 | the sheet-metal and standard exports of the same part path write the same file |
| Conversion.ExportAll | Form1.cs:63-76 | each path is sent to export at most once, in first-seen order, and the k-th progress write is k + 1. With no failure, every distinct path was exported. A failure is the export of the last attempted part, and the loop stops there. It runs without failure exactly when every listed part exports |
| Conversion.ExportLoop | Form1.cs:65-76 | the loop stops after the whole deduplicated list or at the first part whose export fails, which is a listed part; the exports recorded are those of the attempted parts before it |
| Conversion.EveryPartExported | Form1.cs:65-76 | a loop that attempted every distinct path and recorded an export for each has exported every listed part |
| Conversion.ExportResolved | Form1.cs:59-89 | once the assembly resolved, the bar is written 0, then 1 to the number of attempted parts, then 0; every value lies within [0, unique part count]; the run completes exactly when every unique part exports, and a failed run ends at the part whose export failed, with that part's message |
| Conversion.ConvertAssembly | Form1.cs:32-90 | a blank path or a missing file is rejected with its message before anything runs. Otherwise the last progress write is 0, every progress value lies in [0, unique part count], and a resolved run writes 0, then 1 to the number of attempted parts, then 0. The unique parts are exported at most once each, in order. The run completes exactly when the assembly resolves and every unique part exports. A resolve failure exports nothing and fails with the message of the check that failed. A resolved run that fails attempted at least one part, exported every attempted part but the last, and reports the last attempted part's export error message |
| Conversion.ProgressWithinBounds | Form1.cs:59-88 | resetting to 0, incrementing once per attempt, and resetting to 0 again keeps every value within [0, unique part count] |
| Conversion.ExportedAtMostOnce | Form1.cs:63-75 | for a run over a correct resolution, a part is sent to export at most once and never more often than the assembly uses it; a run that attempted every unique part sent each qualifying path exactly once |

## Left out

- The Windows Forms layer is not modelled: the file dialog, message boxes, the log text box, `AddLog`'s `Invoke` marshalling and `Application.DoEvents`. The progress bar appears only as the sequence of values written to its `Value`.
- The SolidWorks automation calls are foreign code: `GetTypeFromProgID`, `CreateInstance`, `OpenDoc6`, `GetComponents`, `GetBodies2`, `GetBodyBox`, `ShowNamedView2`, `ViewZoomtofit` and `ExportToDWG2`. Their results are inputs. The `CloseDoc`/`ExitApp` cleanup in the `finally` blocks has no observable result here and is not modelled.
- The 12-value alignment arrays, the export-mode constants and the option flags passed to `ExportToDWG2` are opaque data for the host and are not modelled.
- `File.Exists` is a predicate parameter. `CreateOutputFolder` (`Directory.CreateDirectory` and the folder name) is not modelled; the output folder is a parameter.
- Exceptions the host might throw from calls the code does not check (COM errors) are not modelled. Only the code's own checks and throws are.
- Bounding-box coordinates are real numbers: floating-point rounding, NaN and infinities are not modelled.
- Orientation.BoxExtents: a box with NaN values is not modelled, because coordinates are reals. With NaN every comparison is false and the code picks `*Front`.
- Resolver.CollectParts: does not model 32-bit overflow of the per-path counts or of `Values.Sum()`, because that takes more than 2^31 occurrences.
- Text.EndsWithIgnoreCaseIffUpper: case folding covers ASCII letters only. Non-ASCII characters that .NET's invariant upper-casing maps onto `S`, `L`, `D`, `P`, `R` or `T` are not modelled.
- Paths.OutputPathNaming: `Path.GetFileName` is modelled for `\` and `/` separators and a leading drive prefix. UNC and device roots are not modelled.
- Text.IntToStringRoundTrip: the minus sign is `-`. Cultures with another negative sign are not modelled.
