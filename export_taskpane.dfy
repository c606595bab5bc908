/**
 * The Export To File taskpane: its default parameters, the file-name
 * warning, when the generate button is disabled, and the parameter edits.
 */
module ExportTaskpane {
  import opened Wrappers
  import opened Text

  datatype ExportType = Csv | Excel

  /** `ExportToFileParams`. */
  datatype ExportParams = ExportParams(exportType: ExportType, sheetIndexes: seq<int>, fileName: string)

  /** A sheet as the taskpane sees it: only its dataframe's name matters. */
  datatype SheetData = SheetData(dfName: string)

  const ExportSuffix := "_export"

  /**
   * `getDefaultParams`: nothing without a sheet at the selected index;
   * otherwise a CSV export of that sheet named after its dataframe.
   */
  function GetDefaultParams(sheets: seq<SheetData>, sheetIndex: int): (r: Option<ExportParams>)
    ensures r.None? <==> !(0 <= sheetIndex < |sheets|)
    ensures r.Some? ==>
      && r.value.exportType == Csv && r.value.sheetIndexes == [sheetIndex]
      && r.value.fileName == sheets[sheetIndex].dfName + ExportSuffix
  {
    if |sheets| == 0 || !(0 <= sheetIndex < |sheets|) then None
    else Some(ExportParams(Csv, [sheetIndex], sheets[sheetIndex].dfName + ExportSuffix))
  }

  const CsvMismatchWarning := "The .xlsx " + "file extension " + "does not match " + "the CSV " + "File Type."
  const ExcelMismatchWarning := "The file " + "extension ending " + "does not match " + "the Excel " + "file type."

  /** The extension checks made before the general file-name check. */
  predicate ExtensionMismatch(p: ExportParams) {
    (p.exportType == Csv && EndsWith(p.fileName, ".xlsx"))
    || (p.exportType == Excel && (EndsWith(p.fileName, ".txt") || EndsWith(p.fileName, ".csv")))
  }

  /**
   * The warning shown under the file name. `invalidFileNameError` is the
   * general file-name check, which lives elsewhere and is a parameter here.
   */
  function InvalidFileNameWarning(p: ExportParams, invalidFileNameError: string -> Option<string>): (w: Option<string>)
    ensures p.exportType == Csv && EndsWith(p.fileName, ".xlsx") ==> w == Some(CsvMismatchWarning)
    ensures p.exportType == Excel && (EndsWith(p.fileName, ".txt") || EndsWith(p.fileName, ".csv"))
      ==> w == Some(ExcelMismatchWarning)
    ensures !ExtensionMismatch(p) ==> w == invalidFileNameError(p.fileName)
  {
    if p.exportType == Csv && EndsWith(p.fileName, ".xlsx") then Some(CsvMismatchWarning)
    else if p.exportType == Excel && (EndsWith(p.fileName, ".txt") || EndsWith(p.fileName, ".csv")) then
      Some(ExcelMismatchWarning)
    else invalidFileNameError(p.fileName)
  }

  /** The generate button's `disabled` state. */
  function IsGenerateDisabled(p: ExportParams, warning: Option<string>, loading: bool): (d: bool)
    ensures !d <==> p.fileName != "" && p.sheetIndexes != [] && warning.None? && !loading
  {
    p.fileName == [] || |p.sheetIndexes| == 0 || warning.Some? || loading
  }

  /** A mismatched extension always disables the button, whatever the general check says. */
  lemma MismatchDisablesGenerate(p: ExportParams, invalidFileNameError: string -> Option<string>, loading: bool)
    requires ExtensionMismatch(p)
    ensures IsGenerateDisabled(p, InvalidFileNameWarning(p, invalidFileNameError), loading)
  {
  }

  /**
   * The button is enabled exactly when there is a name, a sheet, no warning
   * and no request in flight.
   */
  lemma GenerateEnabledIff(p: ExportParams, invalidFileNameError: string -> Option<string>, loading: bool)
    ensures !IsGenerateDisabled(p, InvalidFileNameWarning(p, invalidFileNameError), loading)
      <==> p.fileName != "" && p.sheetIndexes != [] && !loading && !ExtensionMismatch(p)
           && invalidFileNameError(p.fileName).None?
  {
  }

  /** The default name never trips an extension check: only the general check can warn about it. */
  lemma DefaultParamsHaveNoMismatch(sheets: seq<SheetData>, sheetIndex: int, invalidFileNameError: string -> Option<string>)
    requires 0 <= sheetIndex < |sheets|
    ensures var p := GetDefaultParams(sheets, sheetIndex).value;
      InvalidFileNameWarning(p, invalidFileNameError) == invalidFileNameError(sheets[sheetIndex].dfName + ExportSuffix)
  {
    var name := sheets[sheetIndex].dfName + ExportSuffix;
    assert name[|name| - 1] == 't';
    assert !EndsWith(name, ".xlsx");
  }

  /** The three change handlers: each replaces one field. */
  function SetFileName(p: ExportParams, newValue: string): (q: ExportParams)
    ensures q.fileName == newValue && q.exportType == p.exportType && q.sheetIndexes == p.sheetIndexes
  {
    p.(fileName := newValue)
  }

  function SetExportType(p: ExportParams, newType: ExportType): (q: ExportParams)
    ensures q.exportType == newType && q.fileName == p.fileName && q.sheetIndexes == p.sheetIndexes
  {
    p.(exportType := newType)
  }

  function SetSheetIndexes(p: ExportParams, newSelected: seq<int>): (q: ExportParams)
    ensures q.sheetIndexes == newSelected && q.fileName == p.fileName && q.exportType == p.exportType
  {
    p.(sheetIndexes := newSelected)
  }

  /** Edits to different fields commute, and setting a field back undoes an edit. */
  lemma HandlersCommuteAndUndo(p: ExportParams, name: string, t: ExportType, idx: seq<int>)
    ensures SetFileName(SetExportType(p, t), name) == SetExportType(SetFileName(p, name), t)
    ensures SetSheetIndexes(SetFileName(p, name), idx) == SetFileName(SetSheetIndexes(p, idx), name)
    ensures SetSheetIndexes(SetExportType(p, t), idx) == SetExportType(SetSheetIndexes(p, idx), t)
    ensures SetFileName(SetFileName(p, name), p.fileName) == p
    ensures SetExportType(SetExportType(p, t), p.exportType) == p
    ensures SetSheetIndexes(SetSheetIndexes(p, idx), p.sheetIndexes) == p
  {
  }

  /**
   * Switching a ".csv" name from CSV to Excel makes the Excel mismatch
   * warning appear.
   */
  lemma CsvNameWarnsForExcel(p: ExportParams, invalidFileNameError: string -> Option<string>)
    requires EndsWith(p.fileName, ".csv")
    ensures InvalidFileNameWarning(SetExportType(p, Excel), invalidFileNameError) == Some(ExcelMismatchWarning)
  {
  }
}
