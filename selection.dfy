/**
  The two selection callbacks of the dashboard: `update_styles`, which
  highlights the selected table rows, and the row choice of `update_map`,
  which picks the animal whose location the map shows.
 */
module Selection {
  import opened Wrappers
  import opened Records
  import opened Frames

  /** The highlight colour of a selected row. */
  const Highlight := "#D2F3FF"

  /** One entry of the table's conditional style: the row it applies to and
      its background colour. */
  datatype Style = Style(rowIndex: int, backgroundColor: string)

  /** `update_styles`: one highlight entry per selected row, in selection order. */
  function UpdateStyles(selectedRows: seq<int>): (styles: seq<Style>)
    ensures |styles| == |selectedRows|
    ensures forall i :: 0 <= i < |styles| ==> styles[i].rowIndex == selectedRows[i]
    ensures forall i :: 0 <= i < |styles| ==> styles[i].backgroundColor == Highlight
  {
    seq(|selectedRows|, i requires 0 <= i < |selectedRows| => Style(selectedRows[i], Highlight))
  }

  /** The rows the styles highlight. */
  function HighlightedRows(styles: seq<Style>): set<int> {
    set i | 0 <= i < |styles| :: styles[i].rowIndex
  }

  /** A row is highlighted exactly when it is selected. */
  lemma HighlightsExactlySelected(selectedRows: seq<int>, row: int)
    ensures row in HighlightedRows(UpdateStyles(selectedRows)) <==> row in selectedRows
  {
    var styles := UpdateStyles(selectedRows);
    if row in selectedRows {
      var i :| 0 <= i < |selectedRows| && selectedRows[i] == row;
      assert styles[i].rowIndex == row;
    }
  }

  /** The row choice of `update_map`, as written. The rows are the table's
      current page (`derived_viewport_data`), or the table the dashboard
      started with when the page is not known yet. With no selection the
      map shows the first row; otherwise the row at the first selected
      index, read with `iloc`, which counts a negative index from the end
      (the table itself only selects non-negative ones). */
  function ChooseMapRow(viewData: Option<seq<Record>>, initial: seq<Record>, selected: Option<seq<int>>)
    : (r: Result<Record, FrameError>)
    ensures var rows := if viewData.Some? then viewData.value else initial;
      && ((selected.None? || selected.value == []) ==>
            if rows == [] then r == Err(IndexError(0)) else r == Ok(rows[0]))
      && (selected.Some? && selected.value != [] && 0 <= selected.value[0] < |rows| ==>
            r == Ok(rows[selected.value[0]]))
      && (selected.Some? && selected.value != [] && -|rows| <= selected.value[0] < 0 ==>
            r == Ok(rows[|rows| + selected.value[0]]))
      && (selected.Some? && selected.value != [] && !(-|rows| <= selected.value[0] < |rows|) ==>
            r == Err(IndexError(selected.value[0])))
  {
    var rows := if viewData.Some? then viewData.value else initial;
    if selected.None? || selected.value == [] then ILoc(rows, 0)
    else ILoc(rows, selected.value[0])
  }

  // ---------------------------------------------------------------------
  // The selected index and the current page
  // ---------------------------------------------------------------------

  /** What the table holds when the map is updated: all rows after the
      table's own filtering and sorting (`derived_virtual_data`), and the
      page being shown. Selected indices (`derived_virtual_selected_rows`)
      are positions in `virtualData`. */
  datatype TableView = TableView(virtualData: seq<Record>, pageCurrent: nat, pageSize: nat)

  /** The position, among all rows, of the first row of the current page. */
  function PageStart(t: TableView): nat {
    t.pageCurrent * t.pageSize
  }

  /** The rows of the current page (`derived_viewport_data`). */
  function Viewport(t: TableView): (page: seq<Record>)
    ensures |page| <= t.pageSize
    ensures forall i :: 0 <= i < |page| ==>
      PageStart(t) + i < |t.virtualData| && page[i] == t.virtualData[PageStart(t) + i]
  {
    var start := if PageStart(t) <= |t.virtualData| then PageStart(t) else |t.virtualData|;
    var end := if start + t.pageSize <= |t.virtualData| then start + t.pageSize else |t.virtualData|;
    t.virtualData[start..end]
  }

  /** Twenty animals told apart by their `animal_id`. */
  function Animals(): seq<Record> {
    seq(20, i requires 0 <= i < 20 => map["animal_id" := Number(i as real)])
  }

  /** As written, `update_map` reads a position in all rows as a position in
      the current page: select the fourth animal on the first page, turn to
      the second page, and the map shows the fourteenth; select an animal on
      the second page and the lookup fails. */
  lemma ChooseMapRowMixesUpPages()
    ensures var t := TableView(Animals(), 1, 10);
      && ChooseMapRow(Some(Viewport(t)), [], Some([3])) == Ok(Animals()[13])
      && Animals()[13] != Animals()[3]
      && ChooseMapRow(Some(Viewport(t)), [], Some([12])) == Err(IndexError(12))
  {
    var t := TableView(Animals(), 1, 10);
    assert |Viewport(t)| == 10;
    assert Viewport(t)[3] == Animals()[13];
    assert Animals()[13]["animal_id"] != Animals()[3]["animal_id"];
  }

  /** The row choice `update_map` evidently intends: with no selection the
      first row of the current page, otherwise the selected animal itself. */
  function ChooseSelectedAnimal(t: TableView, selected: Option<seq<int>>): (r: Result<Record, FrameError>)
    ensures (selected.None? || selected.value == []) && Viewport(t) != [] ==> r == Ok(Viewport(t)[0])
    ensures selected.Some? && selected.value != [] && 0 <= selected.value[0] < |t.virtualData| ==>
      r == Ok(t.virtualData[selected.value[0]])
  {
    if selected.None? || selected.value == [] then ILoc(Viewport(t), 0)
    else ILoc(t.virtualData, selected.value[0])
  }

  /** Whatever page is shown, the intended choice follows the selected animal. */
  lemma SelectedAnimalIgnoresPage(t: TableView, page: nat, k: int)
    requires 0 <= k < |t.virtualData|
    ensures ChooseSelectedAnimal(t.(pageCurrent := page), Some([k])) == ChooseSelectedAnimal(t, Some([k]))
    ensures ChooseSelectedAnimal(t, Some([k])) == Ok(t.virtualData[k])
  {
  }
}
