/**
 * The code chunk that writes the export step's Python: one `to_csv` call
 * per exported sheet, or an `ExcelWriter` block with one `to_excel` call per
 * sheet followed by the header formatting of every dataframe.
 */
module ExportCodeChunk {
  import opened Wrappers
  import opened Text

  /** The indentation unit of generated code. */
  const Tab := "    "

  /** The Python exceptions the chunk can raise. */
  datatype PyError = IndexError | ValueError(message: string)

  /** Python `xs[i]`, negative indices counting from the end. */
  function PyIndex<T>(xs: seq<T>, i: int): (r: Option<T>)
    ensures r.Some? <==> -|xs| <= i < |xs|
    ensures 0 <= i < |xs| ==> r == Some(xs[i])
    ensures -|xs| <= i < 0 ==> r == Some(xs[|xs| + i])
  {
    if 0 <= i < |xs| then Some(xs[i])
    else if -|xs| <= i < 0 then Some(xs[|xs| + i])
    else None
  }

  /** The header colours of one dataframe's format. */
  datatype DfFormat = DfFormat(headerColor: Option<string>, headerBackgroundColor: Option<string>)

  /** The parts of the post-step state the chunk reads. */
  datatype SheetState = SheetState(dfNames: seq<string>, dfFormats: seq<DfFormat>)

  // ---------------------------------------------------------------------
  // get_format_code
  // ---------------------------------------------------------------------

  const WorkbookLine := Tab + "workbook = " + "writer.book"

  /** `headerFormat.set_font_color("<color>")`. */
  function SetFontColor(color: string): string {
    "headerFormat" + ".set_font_color" + "(\"" + color + "\")"
  }

  /** `headerFormat.set_bg_color("<color>")`. */
  function SetBgColor(color: string): string {
    "headerFormat" + ".set_bg_color" + "(\"" + color + "\")"
  }

  /** The font-colour call, present only when a header colour is set. */
  function FontColorCall(f: DfFormat): (c: string)
    ensures c == "" <==> f.headerColor.None?
    ensures f.headerColor.Some? ==> c == SetFontColor(f.headerColor.value)
  {
    match f.headerColor
    case None => ""
    case Some(color) => SetFontColor(color)
  }

  /** The background-colour call, present only when a header background is set. */
  function BgColorCall(f: DfFormat): (c: string)
    ensures c == "" <==> f.headerBackgroundColor.None?
    ensures f.headerBackgroundColor.Some? ==> c == SetBgColor(f.headerBackgroundColor.value)
  {
    match f.headerBackgroundColor
    case None => ""
    case Some(color) => SetBgColor(color)
  }

  // The fixed lines of a formatting block. Here and below, long literals are
  // written as short pieces: the prover's work on a literal grows quickly
  // with its length.
  const WorksheetOpen := Tab + "worksheet = " + "writer.sheets" + "[\""
  const WorksheetClose := "\"]"
  const CreateComment := Tab + "# Create the " + "formatting " + "object for " + "styling headers"
  const AddFormatLine := Tab + "headerFormat = " + "workbook." + "add_format(" + "{ \"border\": 1, " + "\"bold\": True })"
  const ApplyComment := Tab + "# Apply " + "formatting to " + "the headers"
  const SetRowLine := Tab + "worksheet." + "set_row(" + "0, None, " + "headerFormat)"

  /** The lines of one sheet's formatting block. */
  function FormatBlockLines(sheetName: string, f: DfFormat): seq<string> {
    [ "",
      WorksheetOpen + sheetName + WorksheetClose,
      CreateComment,
      AddFormatLine,
      Tab + FontColorCall(f),
      Tab + BgColorCall(f),
      ApplyComment,
      SetRowLine,
      Tab + Tab ]
  }

  /** One sheet's formatting block, as the triple-quoted template renders it. */
  function FormatBlock(sheetName: string, f: DfFormat): string {
    Join(FormatBlockLines(sheetName, f), "\n")
  }

  lemma NoCharConcat(a: string, b: string, c: char)
    requires c !in a && c !in b
    ensures c !in a + b
  {
  }

  lemma TemplateHasNoNewline()
    ensures '\n' !in Tab && '\n' !in "" && '\n' !in Tab + Tab
    ensures '\n' !in WorksheetOpen && '\n' !in WorksheetClose
    ensures '\n' !in CreateComment && '\n' !in AddFormatLine
    ensures '\n' !in ApplyComment && '\n' !in SetRowLine
  {
    CreateCommentHasNoNewline();
    ApplyCommentHasNoNewline();
    AddFormatHasNoNewline();
    SetRowHasNoNewline();
  }

  lemma CreateCommentHasNoNewline() ensures '\n' !in CreateComment {}
  lemma ApplyCommentHasNoNewline() ensures '\n' !in ApplyComment {}
  lemma AddFormatHasNoNewline() ensures '\n' !in AddFormatLine {}
  lemma SetRowHasNoNewline() ensures '\n' !in SetRowLine {}

  lemma ColorCallsHaveNoNewline(f: DfFormat)
    requires f.headerColor.Some? ==> '\n' !in f.headerColor.value
    requires f.headerBackgroundColor.Some? ==> '\n' !in f.headerBackgroundColor.value
    ensures '\n' !in FontColorCall(f) && '\n' !in BgColorCall(f)
  {
    if f.headerColor.Some? {
      NoCharConcat("headerFormat" + ".set_font_color" + "(\"", f.headerColor.value, '\n');
      NoCharConcat("headerFormat" + ".set_font_color" + "(\"" + f.headerColor.value, "\")", '\n');
    }
    if f.headerBackgroundColor.Some? {
      NoCharConcat("headerFormat" + ".set_bg_color" + "(\"", f.headerBackgroundColor.value, '\n');
      NoCharConcat("headerFormat" + ".set_bg_color" + "(\"" + f.headerBackgroundColor.value, "\")", '\n');
    }
  }

  /**
   * Read line by line, a block names its sheet on its second line and holds
   * the font-colour and background-colour calls on its fifth and sixth, each
   * of them blank unless that colour is set.
   */
  lemma FormatBlockLayout(sheetName: string, f: DfFormat)
    requires '\n' !in sheetName
    requires f.headerColor.Some? ==> '\n' !in f.headerColor.value
    requires f.headerBackgroundColor.Some? ==> '\n' !in f.headerBackgroundColor.value
    ensures var lines := Split(FormatBlock(sheetName, f), "\n");
      && |lines| == 9
      && lines[1] == WorksheetOpen + sheetName + WorksheetClose
      && lines[4] == Tab + FontColorCall(f)
      && lines[5] == Tab + BgColorCall(f)
      && (lines[4] == Tab <==> f.headerColor.None?)
      && (lines[5] == Tab <==> f.headerBackgroundColor.None?)
  {
    var lines := FormatBlockLines(sheetName, f);
    BlockLinesHaveNoNewline(sheetName, f);
    SplitJoinChar(lines, '\n');
    TabThen(FontColorCall(f));
    TabThen(BgColorCall(f));
  }

  lemma BlockLinesHaveNoNewline(sheetName: string, f: DfFormat)
    requires '\n' !in sheetName
    requires f.headerColor.Some? ==> '\n' !in f.headerColor.value
    requires f.headerBackgroundColor.Some? ==> '\n' !in f.headerBackgroundColor.value
    ensures var lines := FormatBlockLines(sheetName, f);
      |lines| >= 1 && forall i :: 0 <= i < |lines| ==> '\n' !in lines[i]
  {
    TemplateHasNoNewline();
    NoCharConcat(WorksheetOpen, sheetName, '\n');
    NoCharConcat(WorksheetOpen + sheetName, WorksheetClose, '\n');
    ColorCallsHaveNoNewline(f);
    NoCharConcat(Tab, FontColorCall(f), '\n');
    NoCharConcat(Tab, BgColorCall(f), '\n');
  }

  lemma TabThen(call: string)
    ensures Tab + call == Tab <==> call == ""
  {
    if Tab + call == Tab {
      assert |Tab + call| == |Tab|;
    }
  }

  /** The whole result of `get_format_code`: an index error when a format has no dataframe name. */
  function FormatCode(state: SheetState): (r: Result<seq<string>, PyError>)
    ensures r.Err? <==> |state.dfFormats| > |state.dfNames|
    ensures r.Err? ==> r.error == IndexError
    ensures r.Ok? ==>
      && |r.value| == 1 + |state.dfFormats|
      && r.value[0] == WorkbookLine
      && forall i :: 0 <= i < |state.dfFormats| ==>
           r.value[i + 1] == FormatBlock(state.dfNames[i], state.dfFormats[i])
  {
    if |state.dfFormats| > |state.dfNames| then Err(IndexError)
    else Ok([WorkbookLine] + seq(|state.dfFormats|, i requires 0 <= i < |state.dfFormats| =>
      FormatBlock(state.dfNames[i], state.dfFormats[i])))
  }

  /** `get_format_code`: the workbook line, then one block per dataframe format. */
  method GetFormatCode(state: SheetState) returns (r: Result<seq<string>, PyError>)
    ensures r == FormatCode(state)
  {
    var code := [WorkbookLine];
    var sheetIndex := 0;
    while sheetIndex < |state.dfFormats|
      invariant sheetIndex <= |state.dfFormats| && sheetIndex <= |state.dfNames|
      invariant |code| == 1 + sheetIndex && code[0] == WorkbookLine
      invariant forall i :: 0 <= i < sheetIndex ==> code[i + 1] == FormatBlock(state.dfNames[i], state.dfFormats[i])
    {
      if sheetIndex >= |state.dfNames| {
        return Err(IndexError);
      }
      code := code + [FormatBlock(state.dfNames[sheetIndex], state.dfFormats[sheetIndex])];
      sheetIndex := sheetIndex + 1;
    }
    FormatCodeOfLines(state, code);
    r := Ok(code);
  }

  /** Lines that hold the workbook line and then every block are the whole result of `get_format_code`. */
  lemma FormatCodeOfLines(state: SheetState, code: seq<string>)
    requires |state.dfFormats| <= |state.dfNames|
    requires |code| == 1 + |state.dfFormats| && code[0] == WorkbookLine
    requires forall i :: 0 <= i < |state.dfFormats| ==>
      code[i + 1] == FormatBlock(state.dfNames[i], state.dfFormats[i])
    ensures FormatCode(state) == Ok(code)
  {
    var blocks := seq(|state.dfFormats|, i requires 0 <= i < |state.dfFormats| =>
      FormatBlock(state.dfNames[i], state.dfFormats[i]));
    assert FormatCode(state) == Ok([WorkbookLine] + blocks);
    HeadThen(code, WorkbookLine, blocks);
  }

  /** A sequence whose first element is `first` and whose rest matches `rest` index by index. */
  lemma HeadThen<T>(xs: seq<T>, first: T, rest: seq<T>)
    requires |xs| == 1 + |rest| && xs[0] == first
    requires forall i :: 0 <= i < |rest| ==> xs[i + 1] == rest[i]
    ensures xs == [first] + rest
  {
    forall i | 0 <= i < |rest| ensures xs[1..][i] == rest[i] {
      assert xs[1..][i] == xs[i + 1];
    }
    assert xs == [first] + xs[1..];
  }

  // ---------------------------------------------------------------------
  // The code chunk
  // ---------------------------------------------------------------------

  /**
   * The chunk's stored arguments. `exportLocations` lists the entries of
   * `sheet_index_to_export_location` in the dictionary's order.
   */
  datatype ExportChunk = ExportChunk(exportType: string, fileName: string, exportLocations: seq<(int, string)>)

  const DisplayName := "Export To File"

  /** `get_description_comment`: how many exports, and the file name. */
  function GetDescriptionComment(chunk: ExportChunk): (r: string)
    ensures exists count: string ::
      && r == "Exports " + count + " to file " + chunk.fileName
      && |count| >= 1 && (forall i :: 0 <= i < |count| ==> IsDigit(count[i]))
      && (|count| > 1 ==> count[0] != '0')
      && DecimalValue(count) == |chunk.exportLocations|
  {
    var count := NatToString(|chunk.exportLocations|);
    assert DecimalValue(count) == |chunk.exportLocations|;
    "Exports " + count + " to file " + chunk.fileName
  }

  /**
   * One generated line per export entry, rendered from the entry's dataframe
   * name and location; an entry whose sheet index names no dataframe raises.
   */
  function EntryLines(dfNames: seq<string>, entries: seq<(int, string)>, render: (string, string) -> string)
    : (r: Result<seq<string>, PyError>)
    ensures r.Ok? <==> forall i :: 0 <= i < |entries| ==> PyIndex(dfNames, entries[i].0).Some?
    ensures r.Err? ==> r.error == IndexError
    ensures r.Ok? ==> |r.value| == |entries| && forall i :: 0 <= i < |entries| ==>
      r.value[i] == render(PyIndex(dfNames, entries[i].0).value, entries[i].1)
  {
    if entries == [] then Ok([])
    else
      match PyIndex(dfNames, entries[0].0)
      case None => Err(IndexError)
      case Some(name) =>
        match EntryLines(dfNames, entries[1..], render)
        case Err(e) => Err(e)
        case Ok(rest) => Ok([render(name, entries[0].1)] + rest)
  }

  /** The generated lines, for a transpiler of string literals that lives elsewhere. */
  function CsvLine(transpile: string -> string): (string, string) -> string {
    (dfName: string, location: string) => dfName + ".to_csv(r" + transpile(location) + ", " + "index=False)"
  }

  function ExcelLine(dfName: string, location: string): string {
    Tab + dfName + ".to_excel(" + "writer, " + "sheet_name=\"" + location + "\", " + "index=False)"
  }

  function ExcelWriterLine(transpile: string -> string, fileName: string): string {
    "with pd." + "ExcelWriter(r" + transpile(fileName) + ") as " + "writer:\n" + Tab
      + "pd.io.formats." + "excel." + "ExcelFormatter." + "header_style" + " = None"
  }

  const PandasImport := "import pandas as pd"

  /** Generated code lines and the imports they need. */
  datatype Code = Code(lines: seq<string>, imports: seq<string>)

  /**
   * `get_code`. `transpile` stands for `column_header_to_transpiled_code`,
   * which quotes a string as a Python literal.
   */
  function GetCode(chunk: ExportChunk, post: SheetState, transpile: string -> string): (r: Result<Code, PyError>)
    ensures chunk.exportType != "csv" && chunk.exportType != "excel" ==>
      r == Err(ValueError("Not a valid file type: " + chunk.exportType))
    ensures chunk.exportType == "csv" && r.Ok? ==>
      && r.value.imports == []
      && |r.value.lines| == |chunk.exportLocations|
      && forall i :: 0 <= i < |chunk.exportLocations| ==>
           PyIndex(post.dfNames, chunk.exportLocations[i].0).Some? &&
           r.value.lines[i] == CsvLine(transpile)(PyIndex(post.dfNames, chunk.exportLocations[i].0).value,
                                                  chunk.exportLocations[i].1)
    ensures chunk.exportType == "excel" && r.Ok? ==>
      && r.value.imports == [PandasImport]
      && |r.value.lines| == 1 + |chunk.exportLocations| + 1 + |post.dfFormats|
      && r.value.lines[0] == ExcelWriterLine(transpile, chunk.fileName)
      && (forall i :: 0 <= i < |chunk.exportLocations| ==>
           PyIndex(post.dfNames, chunk.exportLocations[i].0).Some? &&
           r.value.lines[1 + i] == ExcelLine(PyIndex(post.dfNames, chunk.exportLocations[i].0).value,
                                             chunk.exportLocations[i].1))
      && FormatCode(post).Ok?
      && r.value.lines[1 + |chunk.exportLocations|..] == FormatCode(post).value
    ensures (chunk.exportType == "csv" || chunk.exportType == "excel") ==>
      (r.Ok? <==> (forall i :: 0 <= i < |chunk.exportLocations| ==> PyIndex(post.dfNames, chunk.exportLocations[i].0).Some?)
                  && (chunk.exportType == "excel" ==> |post.dfFormats| <= |post.dfNames|))
  {
    if chunk.exportType == "csv" then CsvCode(chunk, post, transpile)
    else if chunk.exportType == "excel" then ExcelCode(chunk, post, transpile)
    else Err(ValueError("Not a valid file type: " + chunk.exportType))
  }

  /** The CSV branch of `get_code`: one `to_csv` line per export entry, no imports. */
  function CsvCode(chunk: ExportChunk, post: SheetState, transpile: string -> string): (r: Result<Code, PyError>)
    ensures r.Ok? <==> forall i :: 0 <= i < |chunk.exportLocations| ==> PyIndex(post.dfNames, chunk.exportLocations[i].0).Some?
    ensures r.Err? ==> r.error == IndexError
    ensures r.Ok? ==>
      && r.value.imports == []
      && |r.value.lines| == |chunk.exportLocations|
      && forall i :: 0 <= i < |chunk.exportLocations| ==>
           r.value.lines[i] == CsvLine(transpile)(PyIndex(post.dfNames, chunk.exportLocations[i].0).value,
                                                  chunk.exportLocations[i].1)
  {
    match EntryLines(post.dfNames, chunk.exportLocations, CsvLine(transpile))
    case Err(e) => Err(e)
    case Ok(lines) => Ok(Code(lines, []))
  }

  /**
   * The Excel branch of `get_code`: the `ExcelWriter` line, one `to_excel`
   * line per export entry, then the format code; pandas is imported.
   */
  function ExcelCode(chunk: ExportChunk, post: SheetState, transpile: string -> string): (r: Result<Code, PyError>)
    ensures r.Ok? <==> (forall i :: 0 <= i < |chunk.exportLocations| ==> PyIndex(post.dfNames, chunk.exportLocations[i].0).Some?)
                       && |post.dfFormats| <= |post.dfNames|
    ensures r.Err? ==> r.error == IndexError
    ensures r.Ok? ==>
      && r.value.imports == [PandasImport]
      && |r.value.lines| == 1 + |chunk.exportLocations| + 1 + |post.dfFormats|
      && r.value.lines[0] == ExcelWriterLine(transpile, chunk.fileName)
      && (forall i :: 0 <= i < |chunk.exportLocations| ==>
           r.value.lines[1 + i] == ExcelLine(PyIndex(post.dfNames, chunk.exportLocations[i].0).value,
                                             chunk.exportLocations[i].1))
      && FormatCode(post).Ok?
      && r.value.lines[1 + |chunk.exportLocations|..] == FormatCode(post).value
  {
    match EntryLines(post.dfNames, chunk.exportLocations, ExcelLine)
    case Err(e) => Err(e)
    case Ok(lines) =>
      match FormatCode(post)
      case Err(e) => Err(e)
      case Ok(format) =>
        var header := [ExcelWriterLine(transpile, chunk.fileName)];
        ThreeRuns(header, lines, format);
        Ok(Code(header + lines + format, [PandasImport]))
  }

  /** A parameter the user may later substitute: its code, its kind and a description. */
  datatype Param = Param(code: string, kind: string, description: string)

  /** `get_parameterizable_params`: every CSV path, or the one Excel file name. */
  function GetParameterizableParams(chunk: ExportChunk, transpile: string -> string): (r: Result<seq<Param>, PyError>)
    ensures chunk.exportType == "csv" ==>
      && r.Ok? && |r.value| == |chunk.exportLocations|
      && forall i :: 0 <= i < |chunk.exportLocations| ==>
           r.value[i] == Param("r" + transpile(chunk.exportLocations[i].1), "file_name", "CSV export file path")
    ensures chunk.exportType == "excel" ==>
      r == Ok([Param("r" + transpile(chunk.fileName), "file_name", "Excel export file path")])
    ensures chunk.exportType != "csv" && chunk.exportType != "excel" ==>
      r == Err(ValueError("Not a valid file type: " + chunk.exportType))
  {
    if chunk.exportType == "csv" then
      Ok(seq(|chunk.exportLocations|, i requires 0 <= i < |chunk.exportLocations| =>
        Param("r" + transpile(chunk.exportLocations[i].1), "file_name", "CSV export file path")))
    else if chunk.exportType == "excel" then
      Ok([Param("r" + transpile(chunk.fileName), "file_name", "Excel export file path")])
    else Err(ValueError("Not a valid file type: " + chunk.exportType))
  }

  /** Every CSV export has a parameter for its path and a line of code, one for one. */
  lemma CsvParamsMatchLines(chunk: ExportChunk, post: SheetState, transpile: string -> string)
    requires chunk.exportType == "csv" && GetCode(chunk, post, transpile).Ok?
    ensures |GetParameterizableParams(chunk, transpile).value| == |GetCode(chunk, post, transpile).value.lines|
  {
  }
}
