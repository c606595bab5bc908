/**
 * The parameter section of the user-defined import taskpane: one element per
 * parameter of the user's function, where a column-header parameter reads
 * its columns from the dataframe chosen by the closest DataFrame parameter
 * before it, and the change handlers that write a parameter's new value.
 */
module UdfParamConfig {
  import opened Wrappers
  import opened Text

  /** A sheet: its dataframe's name (its columns are not modelled). */
  datatype SheetData = SheetData(dfName: string)

  /** The input shown for one parameter. */
  datatype Input =
    | NoInput
    | NoPrecedingDataframe(message: string)
    | ColumnHeaderSelect(sheetIndex: int, value: Option<string>)
    | TextInput(value: Option<string>, isPassword: bool)
    | BoolToggle(checked: bool)

  /** One generated element: a dataframe selector, or a row with the parameter's input. */
  datatype ParamElement =
    | DataframeSelect(paramName: string, sheetIndex: int)
    | ParamRow(paramName: string, paramType: string, input: Input)

  /** Reading a missing parameter's value as text makes rendering throw. */
  datatype RenderError = TypeError

  /** `sheetDataArray.findIndex(s => s.dfName === value)`; an absent value matches no sheet. */
  function FindSheet(sheets: seq<SheetData>, value: Option<string>): (r: int)
    ensures -1 <= r < |sheets|
    ensures r >= 0 ==> value == Some(sheets[r].dfName) && forall k :: 0 <= k < r ==> value != Some(sheets[k].dfName)
    ensures r == -1 <==> forall k :: 0 <= k < |sheets| ==> value != Some(sheets[k].dfName)
  {
    if sheets == [] then -1
    else if value == Some(sheets[0].dfName) then 0
    else
      var k := FindSheet(sheets[1..], value);
      if k < 0 then -1 else k + 1
  }

  /** The sheet index a DataFrame parameter selects: 0 for an empty value, else the first sheet of that name, or -1. */
  function ResolveSheetIndex(sheets: seq<SheetData>, value: Option<string>): (r: int)
    ensures value == Some("") ==> r == 0
    ensures value != Some("") ==> r == FindSheet(sheets, value)
  {
    if value != Some("") then FindSheet(sheets, value) else 0
  }

  const ColumnHeaderParam := "ColumnHeader"
  const DataFrameParam := "DataFrame"

  function NoPrecedingDataframeMessage(paramName: string): string {
    "The parameter " + paramName + " of type " + "Column Header " + "has no " + "preceding " + "dataframe " + "to reference, " + "and as such " + "cannot be set."
  }

  /** The bool toggle is on when the lower-cased value mentions "true". */
  predicate BoolDisplay(value: string) {
    Contains(AsciiLower(value), "true")
  }

  /** The string the toggle writes: the negation of what it shows. */
  function ToggleBool(value: string): (r: string)
    ensures r == "true" || r == "false"
    ensures BoolDisplay(value) <==> r == "false"
  {
    if BoolDisplay(value) then "false" else "true"
  }

  lemma BoolLiterals()
    ensures BoolDisplay("true") && !BoolDisplay("false")
  {
    assert AsciiLower("true") == "true";
    assert AsciiLower("false") == "false";
    assert OccursAt("true", "true", 0);
    assert "false"[0..4] == "fals" && "false"[1..5] == "alse";
  }

  /** Toggling flips what the toggle shows; twice, it shows the original state again. */
  lemma ToggleFlips(value: string)
    ensures BoolDisplay(ToggleBool(value)) == !BoolDisplay(value)
    ensures BoolDisplay(ToggleBool(ToggleBool(value))) == BoolDisplay(value)
  {
    BoolLiterals();
  }

  /** The input a non-DataFrame parameter gets, given the closest preceding DataFrame's sheet index. */
  function InputFor(name: string, paramType: string, value: Option<string>, sheets: seq<SheetData>, previousSheetIndex: int)
    : (r: Result<Input, RenderError>)
    ensures paramType == ColumnHeaderParam ==>
      r == Ok(if 0 <= previousSheetIndex < |sheets| then ColumnHeaderSelect(previousSheetIndex, value)
              else NoPrecedingDataframe(NoPrecedingDataframeMessage(name)))
    ensures paramType in {"str", "any", "int", "float"} ==>
      r == Ok(TextInput(value, AsciiLower(name) == "password"))
    ensures paramType == "bool" ==> (r.Err? <==> value.None?)
    ensures paramType == "bool" && value.Some? ==> r == Ok(BoolToggle(BoolDisplay(value.value)))
    ensures paramType !in {ColumnHeaderParam, "str", "any", "int", "float", "bool"} ==> r == Ok(NoInput)
  {
    if paramType == ColumnHeaderParam then
      if 0 <= previousSheetIndex < |sheets| then Ok(ColumnHeaderSelect(previousSheetIndex, value))
      else Ok(NoPrecedingDataframe(NoPrecedingDataframeMessage(name)))
    else if paramType == "str" || paramType == "any" || paramType == "int" || paramType == "float" then
      Ok(TextInput(value, AsciiLower(name) == "password"))
    else if paramType == "bool" then
      if value.None? then Err(TypeError) else Ok(BoolToggle(BoolDisplay(value.value)))
    else Ok(NoInput)
  }

  function ValueOf(params: map<string, string>, name: string): Option<string> {
    if name in params then Some(params[name]) else None
  }

  /** The element for one parameter. */
  function ElementFor(name: string, paramType: string, params: map<string, string>, sheets: seq<SheetData>, previousSheetIndex: int)
    : (r: Result<ParamElement, RenderError>)
    ensures r.Ok? ==> r.value.paramName == name
    ensures paramType == DataFrameParam ==> r == Ok(DataframeSelect(name, ResolveSheetIndex(sheets, ValueOf(params, name))))
    ensures paramType != DataFrameParam ==>
      var input := InputFor(name, paramType, ValueOf(params, name), sheets, previousSheetIndex);
      && (r.Ok? <==> input.Ok?)
      && (r.Ok? ==> r.value == ParamRow(name, paramType, input.value))
  {
    var value := ValueOf(params, name);
    if paramType == DataFrameParam then Ok(DataframeSelect(name, ResolveSheetIndex(sheets, value)))
    else
      match InputFor(name, paramType, value, sheets, previousSheetIndex)
      case Err(e) => Err(e)
      case Ok(input) => Ok(ParamRow(name, paramType, input))
  }

  /**
   * `previousSheetIndex` on reaching parameter `i`: the sheet index of the
   * last DataFrame parameter before it, or -1.
   */
  function PreviousSheetIndex(entries: seq<(string, string)>, params: map<string, string>, sheets: seq<SheetData>, i: nat): (r: int)
    requires i <= |entries|
    ensures -1 <= r && (r < |sheets| || r == 0)
    ensures r != -1 ==> exists j :: 0 <= j < i && entries[j].1 == DataFrameParam
  {
    if i == 0 then -1
    else if entries[i - 1].1 == DataFrameParam then ResolveSheetIndex(sheets, ValueOf(params, entries[i - 1].0))
    else PreviousSheetIndex(entries, params, sheets, i - 1)
  }

  /** The element generated for parameter `i`. */
  function ElementAt(entries: seq<(string, string)>, params: map<string, string>, sheets: seq<SheetData>, i: nat)
    : (r: Result<ParamElement, RenderError>)
    requires i < |entries|
    ensures r.Ok? ==> r.value.paramName == entries[i].0
    ensures entries[i].1 == DataFrameParam ==> r.Ok?
  {
    ElementFor(entries[i].0, entries[i].1, params, sheets, PreviousSheetIndex(entries, params, sheets, i))
  }

  /**
   * The section's elements: nothing without the parameter types or values;
   * otherwise one element per parameter in declaration order (or the error
   * rendering throws). `paramNameToType` lists the entries in their
   * enumeration order.
   */
  method ParamRowElements(paramNameToType: Option<seq<(string, string)>>, params: Option<map<string, string>>, sheets: seq<SheetData>)
    returns (r: Result<seq<ParamElement>, RenderError>)
    ensures paramNameToType.None? || params.None? ==> r == Ok([])
    ensures paramNameToType.Some? && params.Some? ==>
      var entries := paramNameToType.value;
      && (r.Ok? <==> forall i :: 0 <= i < |entries| ==> ElementAt(entries, params.value, sheets, i).Ok?)
      && (r.Ok? ==> |r.value| == |entries|
                    && forall i :: 0 <= i < |entries| ==> r.value[i] == ElementAt(entries, params.value, sheets, i).value)
  {
    if paramNameToType.None? || params.None? {
      return Ok([]);
    }
    var entries := paramNameToType.value;
    var paramRowElements: seq<ParamElement> := [];
    var previousSheetIndex := -1;
    var paramIndex := 0;
    while paramIndex < |entries|
      invariant 0 <= paramIndex <= |entries|
      invariant previousSheetIndex == PreviousSheetIndex(entries, params.value, sheets, paramIndex)
      invariant |paramRowElements| == paramIndex
      invariant forall i :: 0 <= i < paramIndex ==> ElementAt(entries, params.value, sheets, i).Ok?
      invariant forall i :: 0 <= i < paramIndex ==>
        paramRowElements[i] == ElementAt(entries, params.value, sheets, i).value
    {
      var (paramName, paramType) := entries[paramIndex];
      var paramValue := ValueOf(params.value, paramName);
      if paramType == DataFrameParam {
        var sheetIndex := ResolveSheetIndex(sheets, paramValue);
        previousSheetIndex := sheetIndex;
        paramRowElements := paramRowElements + [DataframeSelect(paramName, sheetIndex)];
      } else {
        var input := InputFor(paramName, paramType, paramValue, sheets, previousSheetIndex);
        if input.Err? {
          assert ElementAt(entries, params.value, sheets, paramIndex).Err?;
          return Err(input.error);
        }
        paramRowElements := paramRowElements + [ParamRow(paramName, paramType, input.value)];
      }
      paramIndex := paramIndex + 1;
    }
    r := Ok(paramRowElements);
  }

  /** Before any DataFrame parameter there is no preceding sheet. */
  lemma {:induction false} NoDataFrameBefore(entries: seq<(string, string)>, params: map<string, string>, sheets: seq<SheetData>, i: nat)
    requires i <= |entries|
    requires forall k :: 0 <= k < i ==> entries[k].1 != DataFrameParam
    ensures PreviousSheetIndex(entries, params, sheets, i) == -1
  {
    if i > 0 {
      NoDataFrameBefore(entries, params, sheets, i - 1);
    }
  }

  /** The preceding sheet is the one chosen by the last DataFrame parameter before `i`. */
  lemma {:induction false} LastDataFrameBefore(entries: seq<(string, string)>, params: map<string, string>, sheets: seq<SheetData>, i: nat, j: nat)
    requires j < i <= |entries| && entries[j].1 == DataFrameParam
    requires forall k :: j < k < i ==> entries[k].1 != DataFrameParam
    ensures PreviousSheetIndex(entries, params, sheets, i) == ResolveSheetIndex(sheets, ValueOf(params, entries[j].0))
  {
    if i - 1 > j {
      LastDataFrameBefore(entries, params, sheets, i - 1, j);
    }
  }

  /**
   * A column-header parameter with no DataFrame parameter before it always
   * gets the error message.
   */
  lemma ColumnHeaderWithoutDataFrame(entries: seq<(string, string)>, params: map<string, string>, sheets: seq<SheetData>, i: nat)
    requires i < |entries| && entries[i].1 == ColumnHeaderParam
    requires forall k :: 0 <= k < i ==> entries[k].1 != DataFrameParam
    ensures ElementAt(entries, params, sheets, i)
      == Ok(ParamRow(entries[i].0, ColumnHeaderParam, NoPrecedingDataframe(NoPrecedingDataframeMessage(entries[i].0))))
  {
    NoDataFrameBefore(entries, params, sheets, i);
  }

  /**
   * A column-header parameter right after a DataFrame parameter whose value
   * names a sheet selects from that sheet.
   */
  lemma ColumnHeaderAfterDataFrame(entries: seq<(string, string)>, params: map<string, string>, sheets: seq<SheetData>, i: nat, j: nat)
    requires j < i < |entries| && entries[j].1 == DataFrameParam && entries[i].1 == ColumnHeaderParam
    requires forall k :: j < k < i ==> entries[k].1 != DataFrameParam
    requires 0 <= ResolveSheetIndex(sheets, ValueOf(params, entries[j].0)) < |sheets|
    ensures ElementAt(entries, params, sheets, i)
      == Ok(ParamRow(entries[i].0, ColumnHeaderParam,
                     ColumnHeaderSelect(ResolveSheetIndex(sheets, ValueOf(params, entries[j].0)), ValueOf(params, entries[i].0))))
  {
    LastDataFrameBefore(entries, params, sheets, i, j);
  }

  // ---------------------------------------------------------------------
  // Change handlers
  // ---------------------------------------------------------------------

  /** A copy of the parameters with one key set. */
  function SetParam(params: map<string, string>, paramName: string, newValue: string): (r: map<string, string>)
    ensures r.Keys == params.Keys + {paramName}
    ensures r[paramName] == newValue
    ensures forall k :: k in params && k != paramName ==> r[k] == params[k]
  {
    params[paramName := newValue]
  }

  /** The dataframe selector: the chosen sheet's name; a missing sheet throws. */
  function OnDataframeChange(params: map<string, string>, paramName: string, sheets: seq<SheetData>, newSheetIndex: int)
    : (r: Result<map<string, string>, RenderError>)
    ensures r.Ok? <==> 0 <= newSheetIndex < |sheets|
    ensures r.Ok? ==> r.value == SetParam(params, paramName, sheets[newSheetIndex].dfName)
  {
    if 0 <= newSheetIndex < |sheets| then Ok(SetParam(params, paramName, sheets[newSheetIndex].dfName))
    else Err(TypeError)
  }

  /**
   * The bool toggle's handler: the parameter becomes the literal "true" or
   * "false" that shows the opposite state, and every other parameter stays.
   */
  function OnToggle(params: map<string, string>, paramName: string, paramValue: string): (r: map<string, string>)
    ensures r.Keys == params.Keys + {paramName}
    ensures r[paramName] in {"true", "false"}
    ensures BoolDisplay(r[paramName]) == !BoolDisplay(paramValue)
    ensures forall k :: k in params && k != paramName ==> r[k] == params[k]
  {
    ToggleFlips(paramValue);
    SetParam(params, paramName, ToggleBool(paramValue))
  }

  /**
   * Choosing a sheet in the selector and rendering again selects that sheet,
   * unless an earlier sheet has the same name.
   */
  lemma DataframeChangeRoundTrip(params: map<string, string>, paramName: string, sheets: seq<SheetData>, newSheetIndex: int)
    requires 0 <= newSheetIndex < |sheets| && sheets[newSheetIndex].dfName != ""
    requires forall k :: 0 <= k < newSheetIndex ==> sheets[k].dfName != sheets[newSheetIndex].dfName
    ensures ResolveSheetIndex(sheets, ValueOf(OnDataframeChange(params, paramName, sheets, newSheetIndex).value, paramName))
      == newSheetIndex
  {
    var k := FindSheet(sheets, Some(sheets[newSheetIndex].dfName));
    assert k <= newSheetIndex;
  }

  /** After a toggle the rendered toggle shows the opposite state. */
  lemma ToggleRoundTrip(params: map<string, string>, paramName: string, paramValue: string, sheets: seq<SheetData>, prev: int)
    ensures InputFor(paramName, "bool", ValueOf(OnToggle(params, paramName, paramValue), paramName), sheets, prev)
      == Ok(BoolToggle(!BoolDisplay(paramValue)))
  {
    ToggleFlips(paramValue);
  }
}
