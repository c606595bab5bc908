/**
 * The chat input box: detecting an "@" mention at the cursor, splicing the
 * chosen variable into the text, the preview of the active cell, and the
 * list of variables the mention dropdown offers.
 */
module ChatInput {
  import opened Wrappers
  import opened Text

  // ---------------------------------------------------------------------
  // Mention detection
  // ---------------------------------------------------------------------

  /** The dropdown's visibility and the filter typed after "@". */
  datatype MentionState = MentionState(dropdownVisible: bool, dropdownFilter: string)

  /**
   * `handleInputChange`: the last white-space separated word before the
   * cursor opens the dropdown when it starts with "@"; the rest of the word
   * filters it.
   */
  function HandleInputChange(value: string, cursor: int): (r: MentionState)
    ensures r.dropdownVisible <==> StartsWith(LastWord(Slice(value, 0, cursor)), "@")
    ensures r.dropdownVisible ==> "@" + r.dropdownFilter == LastWord(Slice(value, 0, cursor))
    ensures !r.dropdownVisible ==> r.dropdownFilter == ""
  {
    var textBeforeCursor := Slice(value, 0, cursor);
    var currentWord := LastWord(textBeforeCursor);
    if StartsWith(currentWord, "@") then
      assert currentWord == "@" + currentWord[1..];
      MentionState(true, currentWord[1..])
    else MentionState(false, "")
  }

  lemma SuffixChar(s: string, w: string, k: int)
    ensures EndsWith(s, w) && 0 <= k < |w| ==> w[k] == s[|s| - |w| + k]
  {
    if EndsWith(s, w) && 0 <= k < |w| {
      assert w[k] == s[|s| - |w|..][k];
    }
  }

  /** The last word is the only suffix free of white space that follows white space (or is all of `s`). */
  lemma LastWordUnique(s: string, w: string)
    requires EndsWith(s, w)
    requires forall i :: 0 <= i < |w| ==> !IsWhitespace(w[i])
    requires |w| < |s| ==> IsWhitespace(s[|s| - |w| - 1])
    ensures LastWord(s) == w
  {
    var l := LastWord(s);
    SuffixChar(s, l, |l| - |w| - 1);
    SuffixChar(s, w, |w| - |l| - 1);
    assert |l| == |w|;
  }

  /** Text that ends in white space never counts as a mention. */
  lemma TrailingSpaceHidesDropdown(value: string, cursor: int)
    requires Slice(value, 0, cursor) != ""
    requires IsWhitespace(Slice(value, 0, cursor)[|Slice(value, 0, cursor)| - 1])
    ensures HandleInputChange(value, cursor) == MentionState(false, "")
  {
    LastWordUnique(Slice(value, 0, cursor), "");
  }

  /** A word free of white space typed after white space (or at the start) is the last word. */
  lemma LastWordAfterSpace(front: string, w: string)
    requires front == "" || IsWhitespace(front[|front| - 1])
    requires forall i :: 0 <= i < |w| ==> !IsWhitespace(w[i])
    ensures LastWord(front + w) == w
  {
    var s := front + w;
    assert s[|s| - |w|..] == w;
    assert |w| < |s| ==> s[|s| - |w| - 1] == front[|front| - 1];
    LastWordUnique(s, w);
  }

  lemma MentionHasNoSpace(query: string)
    requires forall i :: 0 <= i < |query| ==> !IsWhitespace(query[i])
    ensures forall i :: 0 <= i < |"@" + query| ==> !IsWhitespace(("@" + query)[i])
  {
    var w := "@" + query;
    forall i | 0 <= i < |w| ensures !IsWhitespace(w[i]) {
      if i > 0 {
        assert w[i] == query[i - 1];
      }
    }
  }

  /** Typing "@" and a word after white space (or at the start) opens the dropdown filtered by that word. */
  lemma MentionOpensDropdown(front: string, query: string, rest: string)
    requires front == "" || IsWhitespace(front[|front| - 1])
    requires forall i :: 0 <= i < |query| ==> !IsWhitespace(query[i])
    ensures HandleInputChange(front + "@" + query + rest, |front| + 1 + |query|) == MentionState(true, query)
  {
    var value := front + "@" + query + rest;
    assert Slice(value, 0, |front| + 1 + |query|) == front + ("@" + query);
    MentionHasNoSpace(query);
    LastWordAfterSpace(front, "@" + query);
  }

  // ---------------------------------------------------------------------
  // Choosing a variable
  // ---------------------------------------------------------------------

  /** JavaScript `s.lastIndexOf(c)` for one character. */
  function LastIndexOf(s: string, c: char): (r: int)
    ensures -1 <= r < |s|
    ensures r >= 0 ==> s[r] == c
    ensures forall k :: r < k < |s| ==> s[k] != c
  {
    if s == [] then -1
    else if s[|s| - 1] == c then |s| - 1
    else LastIndexOf(s[..|s| - 1], c)
  }

  /** The mention as inserted: "`name`", or "`df['name']`" for a column of a DataFrame. */
  function MentionText(variableName: string, parentDf: Option<string>): (t: string)
    ensures parentDf.None? || parentDf.value == "" ==> t == "`" + variableName + "`"
    ensures parentDf.Some? && parentDf.value != "" ==> t == "`" + parentDf.value + "['" + variableName + "']`"
  {
    if parentDf.None? || parentDf.value == "" then "`" + variableName + "`"
    else "`" + parentDf.value + "['" + variableName + "']`"
  }

  /** The new text and the new cursor position. */
  datatype Selection = Selection(newValue: string, newCursor: int)

  /**
   * `handleOptionSelect`: the text from the last "@" before the cursor up to
   * the cursor is replaced by the mention, and the cursor placed after it.
   */
  function HandleOptionSelect(input: string, cursor: int, variableName: string, parentDf: Option<string>): (r: Selection)
    ensures r.newCursor == LastIndexOf(Slice(input, 0, cursor), '@') + |MentionText(variableName, parentDf)|
  {
    var textBeforeCursor := Slice(input, 0, cursor);
    var atIndex := LastIndexOf(textBeforeCursor, '@');
    var textAfterCursor := Slice(input, cursor, |input|);
    var inserted := MentionText(variableName, parentDf);
    Selection(Slice(input, 0, atIndex) + inserted + textAfterCursor, atIndex + |inserted|)
  }

  /**
   * With an "@" before the cursor: everything before that "@" and everything
   * after the cursor survive verbatim around the mention, and the cursor ends
   * right after the mention.
   */
  lemma SelectReplacesMention(input: string, cursor: nat, variableName: string, parentDf: Option<string>)
    requires cursor <= |input| && '@' in input[..cursor]
    ensures var at := LastIndexOf(input[..cursor], '@');
      && 0 <= at < cursor && input[at] == '@'
      && (forall k :: at < k < cursor ==> input[k] != '@')
      && HandleOptionSelect(input, cursor, variableName, parentDf).newValue
           == input[..at] + MentionText(variableName, parentDf) + input[cursor..]
      && HandleOptionSelect(input, cursor, variableName, parentDf).newValue[..HandleOptionSelect(input, cursor, variableName, parentDf).newCursor]
           == input[..at] + MentionText(variableName, parentDf)
  {
    var at := LastIndexOf(input[..cursor], '@');
    LastAtBeforeCursor(input, cursor);
    assert Slice(input, 0, cursor) == input[..cursor];
    Splice(input, at, cursor, MentionText(variableName, parentDf));
  }

  lemma LastAtBeforeCursor(input: string, cursor: nat)
    requires cursor <= |input| && '@' in input[..cursor]
    ensures var at := LastIndexOf(input[..cursor], '@');
      0 <= at < cursor && input[at] == '@' && forall k :: at < k < cursor ==> input[k] != '@'
  {
    var before := input[..cursor];
    var k :| 0 <= k < |before| && before[k] == '@';
    assert LastIndexOf(before, '@') >= k;
  }

  /** Replacing `input[at..cursor]` by `inserted`, and the text up to the end of `inserted`. */
  lemma Splice(input: string, at: int, cursor: int, inserted: string)
    requires 0 <= at < cursor <= |input|
    ensures Slice(input, 0, at) + inserted + Slice(input, cursor, |input|) == input[..at] + inserted + input[cursor..]
    ensures (input[..at] + inserted + input[cursor..])[..at + |inserted|] == input[..at] + inserted
  {
    var front := input[..at] + inserted;
    assert (front + input[cursor..])[..|front|] == front;
  }

  /**
   * With no "@" before the cursor the index is -1, so `slice(0, -1)` keeps
   * the whole input but its last character, the text after the cursor is
   * appended again after the mention, and the cursor lands at the mention's
   * length minus one.
   */
  lemma SelectWithoutAt(input: string, cursor: nat, variableName: string, parentDf: Option<string>)
    requires cursor <= |input| && '@' !in input[..cursor] && |input| > 0
    ensures HandleOptionSelect(input, cursor, variableName, parentDf)
      == Selection(input[..|input| - 1] + MentionText(variableName, parentDf) + input[cursor..],
                   |MentionText(variableName, parentDf)| - 1)
  {
    assert Slice(input, 0, cursor) == input[..cursor];
    assert LastIndexOf(input[..cursor], '@') == -1;
  }

  // ---------------------------------------------------------------------
  // Active cell preview
  // ---------------------------------------------------------------------

  const RestOfCellMarker := "\n\n# Rest " + "of active " + "cell code..."
  const PreviewLines := 8

  /**
   * `activeCellCodePreview`: code of at most eight lines is its own preview;
   * longer code previews as a prefix of the code that ends just before its
   * ninth line, followed by the marker.
   */
  function ActiveCellCodePreview(code: string): (p: string)
    ensures |Split(code, "\n")| <= PreviewLines ==> p == code
    ensures |Split(code, "\n")| > PreviewLines ==>
      && EndsWith(p, RestOfCellMarker)
      && var head := p[..|p| - |RestOfCellMarker|];
         StartsWith(code, head + "\n") && head == Join(Split(code, "\n")[..PreviewLines], "\n")
  {
    var lines := Split(code, "\n");
    var head := Join(lines[..if |lines| < PreviewLines then |lines| else PreviewLines], "\n");
    if |lines| > PreviewLines then
      LongPreview(code, head);
      head + RestOfCellMarker
    else
      ShortPreview(code, head);
      head
  }

  lemma ShortPreview(code: string, head: string)
    requires |Split(code, "\n")| <= PreviewLines
    requires head == Join(Split(code, "\n")[..|Split(code, "\n")|], "\n")
    ensures head == code
  {
    var lines := Split(code, "\n");
    assert lines[..|lines|] == lines;
    JoinSplit(code, "\n");
  }

  lemma LongPreview(code: string, head: string)
    requires |Split(code, "\n")| > PreviewLines
    requires head == Join(Split(code, "\n")[..PreviewLines], "\n")
    ensures var p := head + RestOfCellMarker;
      && EndsWith(p, RestOfCellMarker)
      && p[..|p| - |RestOfCellMarker|] == head
      && StartsWith(code, head + "\n")
  {
    JoinedPiecesArePrefix(code, "\n", PreviewLines);
    var p := head + RestOfCellMarker;
    assert p[|p| - |RestOfCellMarker|..] == RestOfCellMarker;
    assert p[..|p| - |RestOfCellMarker|] == head;
  }

  // ---------------------------------------------------------------------
  // The variables offered by the dropdown
  // ---------------------------------------------------------------------

  const DataFrameType := "pd.DataFrame"

  /** A variable's value: text, or the columns of a DataFrame in entry order. */
  datatype VariableValue = Text(text: string) | Columns(names: seq<string>)

  datatype Variable = Variable(variableName: string, varType: string, value: VariableValue)

  datatype ExpandedVariable = ExpandedVariable(
    variableName: string, varType: string, value: VariableValue, parentDf: Option<string>)

  /** `Object.entries(value)` keys: the column names, or the character indices of a text value. */
  function EntryKeys(v: VariableValue): (keys: seq<string>)
    ensures v.Columns? ==> keys == v.names
    ensures v.Text? ==> |keys| == |v.text|
  {
    match v
    case Columns(names) => names
    case Text(t) => seq(|t|, i requires 0 <= i < |t| => NatToString(i))
  }

  function AsExpanded(v: Variable): ExpandedVariable {
    ExpandedVariable(v.variableName, v.varType, v.value, None)
  }

  /** The variables whose type is (`isDf`) or is not a DataFrame, in order. */
  function Filter(vars: seq<Variable>, isDf: bool): (r: seq<Variable>)
    ensures forall i :: 0 <= i < |r| ==> (r[i].varType == DataFrameType) == isDf
    ensures |r| <= |vars|
  {
    if vars == [] then []
    else if (vars[0].varType == DataFrameType) == isDf then [vars[0]] + Filter(vars[1..], isDf)
    else Filter(vars[1..], isDf)
  }

  /** Filtering a concatenation filters each run in turn: the filter keeps the input's order. */
  lemma {:induction false} FilterAppend(a: seq<Variable>, b: seq<Variable>, isDf: bool)
    ensures Filter(a + b, isDf) == Filter(a, isDf) + Filter(b, isDf)
  {
    if a != [] {
      ConsAppend(a, b);
      FilterAppend(a[1..], b, isDf);
      FilterCons(a + b, a[0], a[1..] + b, isDf);
      FilterCons(a, a[0], a[1..], isDf);
      AppendAssoc(Filter([a[0]], isDf), Filter(a[1..], isDf), Filter(b, isDf));
    } else {
      assert a + b == b;
    }
  }

  /** A single variable is kept, alone, exactly when its type matches. */
  lemma FilterSingle(v: Variable, isDf: bool)
    ensures Filter([v], isDf) == if (v.varType == DataFrameType) == isDf then [v] else []
  {
    assert [v][1..] == [];
  }

  lemma FilterCons(vars: seq<Variable>, head: Variable, tail: seq<Variable>, isDf: bool)
    requires vars == [head] + tail
    ensures Filter(vars, isDf) == Filter([head], isDf) + Filter(tail, isDf)
  {
    assert vars[1..] == tail;
    FilterSingle(head, isDf);
  }

  /** The two filters together keep every variable exactly once. */
  lemma {:induction false} FiltersPartition(vars: seq<Variable>)
    ensures multiset(Filter(vars, false)) + multiset(Filter(vars, true)) == multiset(vars)
  {
    if vars != [] {
      FiltersPartition(vars[1..]);
      assert vars == [vars[0]] + vars[1..];
    }
  }

  function Expand(vars: seq<Variable>): (r: seq<ExpandedVariable>)
    ensures |r| == |vars|
    ensures forall i :: 0 <= i < |vars| ==> r[i] == AsExpanded(vars[i])
  {
    seq(|vars|, i requires 0 <= i < |vars| => AsExpanded(vars[i]))
  }

  /** The 'col' entries of one DataFrame: one per column, in order, tagged with the DataFrame's name. */
  function ColumnsOf(df: Variable): (r: seq<ExpandedVariable>)
    ensures |r| == |EntryKeys(df.value)|
    ensures forall i :: 0 <= i < |r| ==>
      r[i] == ExpandedVariable(EntryKeys(df.value)[i], "col", Text("replace_me"), Some(df.variableName))
  {
    var keys := EntryKeys(df.value);
    seq(|keys|, i requires 0 <= i < |keys| =>
      ExpandedVariable(keys[i], "col", Text("replace_me"), Some(df.variableName)))
  }

  /** `flatMap` over the DataFrames: each one's column entries, one DataFrame after the other. */
  function ColumnEntries(dfs: seq<Variable>): seq<ExpandedVariable>
  {
    if dfs == [] then [] else ColumnsOf(dfs[0]) + ColumnEntries(dfs[1..])
  }

  /** Every column entry is a 'col' with a parent, one per column of all the DataFrames. */
  lemma {:induction false} ColumnEntriesShape(dfs: seq<Variable>)
    ensures var r := ColumnEntries(dfs);
      && |r| == ColumnCount(dfs)
      && forall i :: 0 <= i < |r| ==> r[i].varType == "col" && r[i].parentDf.Some?
  {
    if dfs != [] {
      ColumnEntriesShape(dfs[1..]);
      var a, b := ColumnsOf(dfs[0]), ColumnEntries(dfs[1..]);
      forall i | |a| <= i < |a| + |b| ensures (a + b)[i] == b[i - |a|] {}
    }
  }

  /** The column entries of two runs of DataFrames are those of the first run, then those of the second. */
  lemma {:induction false} ColumnEntriesAppend(a: seq<Variable>, b: seq<Variable>)
    ensures ColumnEntries(a + b) == ColumnEntries(a) + ColumnEntries(b)
  {
    if a != [] {
      ConsAppend(a, b);
      ColumnEntriesAppend(a[1..], b);
      ColumnEntriesStep(a + b, a[0], a[1..] + b);
      ColumnEntriesStep(a, a[0], a[1..]);
      AppendAssoc(ColumnsOf(a[0]), ColumnEntries(a[1..]), ColumnEntries(b));
    } else {
      assert a + b == b;
    }
  }

  lemma ColumnEntriesStep(dfs: seq<Variable>, head: Variable, tail: seq<Variable>)
    requires dfs == [head] + tail
    ensures ColumnEntries(dfs) == ColumnsOf(head) + ColumnEntries(tail)
  {
    assert dfs[1..] == tail;
  }

  function ColumnCount(dfs: seq<Variable>): nat {
    if dfs == [] then 0 else |EntryKeys(dfs[0].value)| + ColumnCount(dfs[1..])
  }

  /**
   * `expandedVariables`: the other variables, then the DataFrames, then
   * their columns; nothing when there is no variable manager.
   */
  function ExpandedVariables(manager: Option<seq<Variable>>): (r: seq<ExpandedVariable>)
    ensures manager.None? ==> r == []
    ensures manager.Some? ==>
      var others := Filter(manager.value, false);
      var dfs := Filter(manager.value, true);
      && |r| == |manager.value| + ColumnCount(dfs)
      && r[..|others|] == Expand(others)
      && r[|others|..|manager.value|] == Expand(dfs)
      && r[|manager.value|..] == ColumnEntries(dfs)
      && (forall i :: 0 <= i < |others| ==> r[i].varType != DataFrameType && r[i].parentDf.None?)
      && (forall i :: |others| <= i < |manager.value| ==> r[i].varType == DataFrameType && r[i].parentDf.None?)
      && (forall i :: |manager.value| <= i < |r| ==> r[i].varType == "col" && r[i].parentDf.Some?)
  {
    match manager
    case None => []
    case Some(vars) =>
      var others := Filter(vars, false);
      var dfs := Filter(vars, true);
      FiltersLength(vars);
      ExpandedLayout(others, dfs);
      Expand(others) + Expand(dfs) + ColumnEntries(dfs)
  }

  lemma FiltersLength(vars: seq<Variable>)
    ensures |Filter(vars, false)| + |Filter(vars, true)| == |vars|
  {
    FiltersPartition(vars);
    assert |multiset(Filter(vars, false))| + |multiset(Filter(vars, true))| == |multiset(vars)|;
  }

  /** Where each of the three runs sits in `expandedVariables`, and what its entries are. */
  lemma ExpandedLayout(others: seq<Variable>, dfs: seq<Variable>)
    requires forall i :: 0 <= i < |others| ==> others[i].varType != DataFrameType
    requires forall i :: 0 <= i < |dfs| ==> dfs[i].varType == DataFrameType
    ensures var r := Expand(others) + Expand(dfs) + ColumnEntries(dfs);
      var n := |others| + |dfs|;
      && |r| == n + ColumnCount(dfs)
      && r[..|others|] == Expand(others)
      && r[|others|..n] == Expand(dfs)
      && r[n..] == ColumnEntries(dfs)
      && (forall i :: 0 <= i < |others| ==> r[i].varType != DataFrameType && r[i].parentDf.None?)
      && (forall i :: |others| <= i < n ==> r[i].varType == DataFrameType && r[i].parentDf.None?)
      && (forall i :: n <= i < |r| ==> r[i].varType == "col" && r[i].parentDf.Some?)
  {
    var a, b, c := Expand(others), Expand(dfs), ColumnEntries(dfs);
    ColumnEntriesShape(dfs);
    ThreeRuns(a, b, c);
  }
}
