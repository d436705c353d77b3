/** Per-part export (Form1.cs, `RunSolidWorksOperations`, `ExportSheetMetalToDWG` and
    `ExportPartToDWG`): opens the part, picks the flat-pattern strategy for sheet-metal
    parts and the single-annotation-view strategy otherwise, and asks the host to
    write `{outputFolder}\{part base name}.dwg`.

    The host's `ExportToDWG2` is uninterpreted: whether it reports success is a field
    of the part document. The alignment arrays and export-mode flags passed to it are
    fixed data for the host and are not modelled. */
module Exporter {
  import opened Wrappers
  import Host
  import Paths
  import SheetMetal
  import Orientation

  /** A solid body; `box` is what `GetBodyBox` returns (`None` for null). */
  datatype Body = Body(box: Option<seq<real>>)

  /** An opened part: its features' type names in tree order, the solid bodies the host
      reports (`None` for null), and whether the host's export call succeeds for it. */
  datatype PartDocument = PartDocument(featureTypeNames: seq<string>, solidBodies: Option<seq<Body>>, exportSucceeds: bool)

  datatype Strategy =
    | FlatPattern                            // sheet-metal export
    | AnnotationViews(view: Orientation.View) // standard export of the one named view

  /** The export the host was asked to perform and reported as done. */
  datatype ExportRequest = ExportRequest(outputPath: string, sourcePath: string, strategy: Strategy)

  const SheetMetalExportFailed := "Sheet metal parçası kaydedilemedi."
  const StandardExportFailed := "Normal parça kaydedilemedi."
  const NoSolidBody := "Parçada katı gövde bulunamadı."

  /** The first solid body's extents, when the part has a body with a proper box. A
      part without solid bodies fails before its box is read. */
  function FirstBodyExtents(doc: PartDocument): (r: Result<Orientation.Extents>)
    ensures r.Ok? <==> doc.solidBodies.Some? && |doc.solidBodies.value| > 0
                       && doc.solidBodies.value[0].box.Some? && |doc.solidBodies.value[0].box.value| == 6
    ensures r.Err? ==> r.message == (if doc.solidBodies.None? || |doc.solidBodies.value| == 0 then NoSolidBody
                                     else Orientation.BoundingBoxUnavailable)
    ensures r.Ok? ==> r.value.dx >= 0.0 && r.value.dy >= 0.0 && r.value.dz >= 0.0
    // the extents are those of the first body's box
    ensures r.Ok? ==> Ok(r.value) == Orientation.BoxExtents(doc.solidBodies.value[0].box)
  {
    if doc.solidBodies.None? || |doc.solidBodies.value| == 0 then Err(NoSolidBody)
    else Orientation.BoxExtents(doc.solidBodies.value[0].box)
  }

  /** Only the first solid body is measured: bodies after it change nothing. */
  lemma OnlyFirstBodyMatters(doc: PartDocument, more: seq<Body>)
    requires doc.solidBodies.Some? && |doc.solidBodies.value| > 0
    ensures FirstBodyExtents(doc.(solidBodies := Some(doc.solidBodies.value[..1] + more))) == FirstBodyExtents(doc)
  {
    assert (doc.solidBodies.value[..1] + more)[0] == doc.solidBodies.value[0];
  }

  /** The export of a sheet-metal part. */
  function ExportSheetMetal(doc: PartDocument, filePath: string, outputFolder: string): (r: Result<ExportRequest>)
    ensures r.Ok? <==> doc.exportSucceeds
    ensures r.Ok? ==> r.value == ExportRequest(Paths.OutputPath(outputFolder, filePath), filePath, FlatPattern)
    ensures r.Err? ==> r.message == SheetMetalExportFailed
  {
    var outputPath := Paths.OutputPath(outputFolder, filePath);
    if doc.exportSucceeds then Ok(ExportRequest(outputPath, filePath, FlatPattern))
    else Err(SheetMetalExportFailed)
  }

  /** The export of any other part: orient the view along the thinnest axis of the first
      solid body, then export that single view. */
  function ExportStandard(doc: PartDocument, filePath: string, outputFolder: string): (r: Result<ExportRequest>)
    ensures r.Ok? <==> FirstBodyExtents(doc).Ok? && doc.exportSucceeds
    ensures r.Ok? ==> r.value == ExportRequest(Paths.OutputPath(outputFolder, filePath), filePath,
                                               AnnotationViews(Orientation.ChooseView(FirstBodyExtents(doc).value)))
    ensures FirstBodyExtents(doc).Err? ==> r.message == FirstBodyExtents(doc).message
    ensures FirstBodyExtents(doc).Ok? && !doc.exportSucceeds ==> r == Err(StandardExportFailed)
  {
    var extents :- FirstBodyExtents(doc);
    var view := Orientation.ChooseView(extents);
    var outputPath := Paths.OutputPath(outputFolder, filePath);
    if doc.exportSucceeds then Ok(ExportRequest(outputPath, filePath, AnnotationViews(view)))
    else Err(StandardExportFailed)
  }

  /** Whether exporting an opened part succeeds. */
  predicate CanExport(doc: PartDocument) {
    doc.exportSucceeds && (SheetMetal.IsSheetMetal(doc.featureTypeNames) || FirstBodyExtents(doc).Ok?)
  }

  /** Opens one part and exports it with the strategy its features call for. */
  function ExportPart(session: Host.Session<PartDocument>, filePath: string, outputFolder: string): (r: Result<ExportRequest>)
    ensures r.Ok? <==> session.Opened? && CanExport(session.doc)
    ensures r.Ok? ==> r.value.sourcePath == filePath
    ensures r.Ok? ==> (r.value.strategy.FlatPattern? <==> SheetMetal.IsSheetMetal(session.doc.featureTypeNames))
    ensures r.Ok? && r.value.strategy.AnnotationViews? ==>
              r.value.strategy.view == Orientation.ChooseView(FirstBodyExtents(session.doc).value)
    ensures !session.Opened? ==> r.message == Host.OpenDocument(session, Host.PartKind).message
    // an opened part fails with the message of the step that failed
    ensures session.Opened? && r.Err? ==>
              r.message == (if SheetMetal.IsSheetMetal(session.doc.featureTypeNames) then SheetMetalExportFailed
                            else if FirstBodyExtents(session.doc).Err? then FirstBodyExtents(session.doc).message
                            else StandardExportFailed)
  {
    var doc :- Host.OpenDocument(session, Host.PartKind);
    if SheetMetal.IsSheetMetal(doc.featureTypeNames) then ExportSheetMetal(doc, filePath, outputFolder)
    else ExportStandard(doc, filePath, outputFolder)
  }

  /** Whichever strategy a part gets, its drawing is `{outputFolder}\{part base name}.dwg`. */
  lemma ExportPartOutputPath(session: Host.Session<PartDocument>, filePath: string, outputFolder: string)
    requires ExportPart(session, filePath, outputFolder).Ok?
    ensures ExportPart(session, filePath, outputFolder).value.outputPath == Paths.OutputPath(outputFolder, filePath)
  {
  }

  /** A sheet-metal part is exported without looking at its bodies: neither a missing
      body nor a missing bounding box makes it fail. */
  lemma SheetMetalNeedsNoGeometry(doc: PartDocument, filePath: string, outputFolder: string, bodies: Option<seq<Body>>)
    requires SheetMetal.IsSheetMetal(doc.featureTypeNames)
    ensures ExportPart(Host.Opened(doc.(solidBodies := bodies)), filePath, outputFolder)
         == ExportPart(Host.Opened(doc), filePath, outputFolder)
  {
  }

  /** Features after the first sheet-metal feature do not influence the export. */
  lemma ExportIgnoresFeaturesAfterSheetMetal(doc: PartDocument, filePath: string, outputFolder: string, rest: seq<string>)
    requires SheetMetal.IsSheetMetal(doc.featureTypeNames)
    ensures ExportPart(Host.Opened(doc.(featureTypeNames := doc.featureTypeNames + rest)), filePath, outputFolder)
         == ExportPart(Host.Opened(doc), filePath, outputFolder)
  {
    SheetMetal.LaterFeaturesIgnored(doc.featureTypeNames, rest);
  }

  /** Both strategies write to the same file for the same part, so re-exporting a part
      (in a later run, or after its classification changed) overwrites the earlier drawing. */
  lemma BothStrategiesShareOutput(sheet: PartDocument, standard: PartDocument, filePath: string, outputFolder: string)
    requires ExportPart(Host.Opened(sheet), filePath, outputFolder).Ok?
    requires ExportPart(Host.Opened(standard), filePath, outputFolder).Ok?
    ensures ExportPart(Host.Opened(sheet), filePath, outputFolder).value.outputPath
         == ExportPart(Host.Opened(standard), filePath, outputFolder).value.outputPath
  {
  }
}
