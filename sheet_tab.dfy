/**
 * The sheet tabs in the footer: which tab, taskpane and modal the UI state
 * shows after a graph is removed or a tab is clicked.
 */
module SheetTab {
  import opened Wrappers

  datatype TabType = DataTabType | GraphTabType

  /** The open taskpane; only the graph taskpane's data matters here. */
  datatype TaskpaneInfo = NoneTaskpane | GraphTaskpane(graphID: string) | OtherTaskpane(taskpaneType: string)

  /** `ModalInfo`: each modal with the data it needs. */
  datatype ModalInfo =
    | NoneModal
    | ErrorModal(error: string, errorShort: string, traceback: Option<string>)
    | SignUpModal
    | ClearAnalysisModal
    | DeleteGraphsModal(sheetIndex: int, dependantGraphs: seq<(string, string)>)
    | ErrorReplayedAnalysisModal(header: string, message: string, oldAnalysisName: string, newAnalysisName: string)
    | DashboardSignupModal
    | GraphTitleEditorModal(graphElement: string)

  /**
   * The UI state the tabs read and write. `otherFields` stands for every
   * other field of the record, which the updaters copy unchanged.
   */
  datatype UIState = UIState(
    selectedTabType: TabType,
    selectedSheetIndex: int,
    selectedGraphID: Option<string>,
    currOpenTaskpane: TaskpaneInfo,
    currOpenModal: ModalInfo,
    otherFields: map<string, string>)

  /** What a tab stands for: a sheet by index or a graph by ID. */
  datatype TabID = DataTab(sheetIndex: int) | GraphTab(graphID: string)

  /**
   * `selectPreviousGraphSheetTab`: show the last graph, or the data tabs
   * when there is none. `graphIDs` are the graph keys in their enumeration
   * order; an empty key is falsy and counts as no graph.
   */
  function SelectPreviousGraphSheetTab(graphIDs: seq<string>, prev: UIState): (s: UIState)
    ensures graphIDs != [] && graphIDs[|graphIDs| - 1] != "" ==>
      var id := graphIDs[|graphIDs| - 1];
      s == prev.(selectedGraphID := Some(id), selectedTabType := GraphTabType, currOpenTaskpane := GraphTaskpane(id))
    ensures graphIDs == [] || graphIDs[|graphIDs| - 1] == "" ==>
      s == prev.(selectedGraphID := None, selectedTabType := DataTabType, currOpenTaskpane := NoneTaskpane)
    ensures s.selectedSheetIndex == prev.selectedSheetIndex && s.currOpenModal == prev.currOpenModal
      && s.otherFields == prev.otherFields
  {
    var newGraphID := if |graphIDs| > 0 then Some(graphIDs[|graphIDs| - 1]) else None;
    if newGraphID.Some? && newGraphID.value != "" then
      prev.(selectedGraphID := newGraphID, selectedTabType := GraphTabType,
            currOpenTaskpane := GraphTaskpane(newGraphID.value))
    else
      prev.(selectedGraphID := None, selectedTabType := DataTabType, currOpenTaskpane := NoneTaskpane)
  }

  /** The tab's `onClick` updater. */
  function OnTabClick(tab: TabID, prev: UIState): (s: UIState)
    ensures tab.DataTab? ==>
      && s.selectedTabType == DataTabType
      && s.selectedSheetIndex == tab.sheetIndex
      && (prev.currOpenTaskpane.GraphTaskpane? ==> s.currOpenTaskpane == NoneTaskpane)
      && (!prev.currOpenTaskpane.GraphTaskpane? ==> s.currOpenTaskpane == prev.currOpenTaskpane)
      && s.selectedGraphID == prev.selectedGraphID && s.currOpenModal == prev.currOpenModal
    ensures tab.GraphTab? ==>
      && s.selectedTabType == GraphTabType
      && s.selectedGraphID == Some(tab.graphID)
      && s.currOpenModal == NoneModal
      && s.currOpenTaskpane == GraphTaskpane(tab.graphID)
      && s.selectedSheetIndex == prev.selectedSheetIndex
    ensures s.otherFields == prev.otherFields
  {
    match tab
    case DataTab(sheetIndex) =>
      var taskpaneInfo := if prev.currOpenTaskpane.GraphTaskpane? then NoneTaskpane else prev.currOpenTaskpane;
      prev.(selectedTabType := DataTabType, selectedSheetIndex := sheetIndex, currOpenTaskpane := taskpaneInfo)
    case GraphTab(graphID) =>
      prev.(selectedTabType := GraphTabType, selectedGraphID := Some(graphID),
            currOpenModal := NoneModal, currOpenTaskpane := GraphTaskpane(graphID))
  }

  /** Clicking the same tab a second time changes nothing more. */
  lemma ClickIsIdempotent(tab: TabID, prev: UIState)
    ensures OnTabClick(tab, OnTabClick(tab, prev)) == OnTabClick(tab, prev)
  {
  }

  /**
   * Selecting the previous graph is clicking the last graph's tab, except
   * that the open modal stays.
   */
  lemma SelectPreviousIsClickOnLastGraph(graphIDs: seq<string>, prev: UIState)
    requires graphIDs != [] && graphIDs[|graphIDs| - 1] != ""
    ensures SelectPreviousGraphSheetTab(graphIDs, prev)
      == OnTabClick(GraphTab(graphIDs[|graphIDs| - 1]), prev).(currOpenModal := prev.currOpenModal)
  {
  }

  /** After a data tab click the graph taskpane is never open. */
  lemma DataClickClosesGraphTaskpane(sheetIndex: int, prev: UIState)
    ensures !OnTabClick(DataTab(sheetIndex), prev).currOpenTaskpane.GraphTaskpane?
  {
  }

  /** The selected graph always has its taskpane open after either updater picks a graph. */
  lemma GraphSelectionOpensItsTaskpane(graphIDs: seq<string>, prev: UIState)
    ensures var s := SelectPreviousGraphSheetTab(graphIDs, prev);
      s.selectedTabType == GraphTabType <==> s.selectedGraphID.Some?
    ensures var s := SelectPreviousGraphSheetTab(graphIDs, prev);
      s.selectedGraphID.Some? ==> s.currOpenTaskpane == GraphTaskpane(s.selectedGraphID.value)
  {
  }
}
