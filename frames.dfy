/**
  The part of a pandas DataFrame's behaviour that the dashboard relies on:
  building a frame from the documents a query returns, dropping columns,
  keeping the rows a boolean mask selects (`frame.loc[...]`), keeping the
  rows a range expression selects (`frame.query(...)`), and reading the
  rows back (`frame.to_dict('records')`).
 */
module Frames {
  import opened Wrappers
  import opened Records

  /** The exceptions the frame operations raise. */
  datatype FrameError =
    | KeyError(labels: set<string>)      // `drop` or `frame[column]` named columns the frame lacks
    | UndefinedVariable(name: string)    // `query` named a column the frame lacks
    | IndexError(position: int)          // `iloc` outside the frame

  /** A frame: its set of columns and its rows, in order. */
  datatype Frame = Frame(columns: set<string>, rows: seq<Record>)

  /** Every row has a cell, possibly `Null`, in exactly the frame's columns. */
  predicate Rectangular(f: Frame) {
    forall i :: 0 <= i < |f.rows| ==> f.rows[i].Keys == f.columns
  }

  // ---------------------------------------------------------------------
  // Building a frame from documents
  // ---------------------------------------------------------------------

  /** The columns of a frame built from `docs`: every field some document has. */
  function Columns(docs: seq<Record>): set<string> {
    if docs == [] then {} else docs[0].Keys + Columns(docs[1..])
  }

  lemma {:induction false} ColumnsMembers(docs: seq<Record>)
    ensures forall c :: c in Columns(docs) <==> exists i :: 0 <= i < |docs| && c in docs[i]
  {
    if docs != [] {
      ColumnsMembers(docs[1..]);
      assert forall i :: 0 < i < |docs| ==> docs[i] == docs[1..][i - 1];
    }
  }

  /** Every field of every document is a column. */
  lemma ColumnsCover(docs: seq<Record>, i: int)
    requires 0 <= i < |docs|
    ensures docs[i].Keys <= Columns(docs)
  {
    ColumnsMembers(docs);
  }

  /** A document as a row of a frame with the given columns: its own value
      in each column it has, `Null` in the others. */
  function Fill(doc: Record, columns: set<string>): Record {
    map c | c in columns :: if c in doc then doc[c] else Null
  }

  /** Dropping columns from a filled row fills fewer columns. */
  lemma FillWithout(doc: Record, columns: set<string>, labels: set<string>)
    ensures Fill(doc, columns) - labels == Fill(doc, columns - labels)
  {
  }

  /** `pd.DataFrame.from_records(docs)`. */
  function FromRecords(docs: seq<Record>): (f: Frame)
    ensures Rectangular(f) && f.columns == Columns(docs) && |f.rows| == |docs|
  {
    var columns := Columns(docs);
    Frame(columns, seq(|docs|, i requires 0 <= i < |docs| => Fill(docs[i], columns)))
  }

  /** Row i of the built frame holds `docs[i]`'s value in each field it
      has, and `Null` in every other column. */
  lemma FromRecordsCells(docs: seq<Record>, i: int)
    requires 0 <= i < |docs|
    ensures forall k :: k in docs[i] ==>
      k in FromRecords(docs).rows[i] && FromRecords(docs).rows[i][k] == docs[i][k]
    ensures forall k :: k in Columns(docs) - docs[i].Keys ==>
      k in FromRecords(docs).rows[i] && FromRecords(docs).rows[i][k] == Null
  {
    ColumnsCover(docs, i);
  }

  // ---------------------------------------------------------------------
  // Operations on a frame
  // ---------------------------------------------------------------------

  /** `frame.drop(labels, axis=1)`: fails, naming the missing labels, unless
      every label is a column. */
  function Drop(f: Frame, labels: set<string>): (r: Result<Frame, FrameError>)
    ensures r.Err? <==> !(labels <= f.columns)
    ensures r.Err? ==> r.error == KeyError(labels - f.columns)
    ensures r.Ok? ==> r.value.columns == f.columns - labels && |r.value.rows| == |f.rows|
    ensures r.Ok? ==> forall i :: 0 <= i < |f.rows| ==> r.value.rows[i] == f.rows[i] - labels
    ensures r.Ok? && Rectangular(f) ==> Rectangular(r.value)
  {
    if !(labels <= f.columns) then Err(KeyError(labels - f.columns))
    else Ok(Frame(f.columns - labels, seq(|f.rows|, i requires 0 <= i < |f.rows| => f.rows[i] - labels)))
  }

  /** The mask `(frame[column] == v1) | (frame[column] == v2) | ...`. */
  predicate CellIn(row: Record, column: string, values: set<string>) {
    column in row && row[column].Text? && row[column].s in values
  }

  /** The mask of the query `lo <= column <= hi`, both bounds inclusive. */
  predicate CellBetween(row: Record, column: string, lo: real, hi: real) {
    column in row && row[column].Number? && lo <= row[column].x <= hi
  }

  /** The masks as functions, so that a frame operation and the lemmas
      about it name the same mask. */
  function InMask(column: string, values: set<string>): Record -> bool {
    row => CellIn(row, column, values)
  }

  function BetweenMask(column: string, lo: real, hi: real): Record -> bool {
    row => CellBetween(row, column, lo, hi)
  }

  /** `frame.loc[(frame[column] == v1) | ...]`: fails when `column` is not a
      column of the frame; otherwise keeps the same columns and exactly the
      rows whose cell is one of `values`. */
  function WhereIn(f: Frame, column: string, values: set<string>): (r: Result<Frame, FrameError>)
    ensures r.Err? <==> column !in f.columns
    ensures r.Err? ==> r.error == KeyError({column})
    ensures r.Ok? ==> r.value.columns == f.columns
    ensures r.Ok? ==> r.value.rows == Filter(f.rows, InMask(column, values))
  {
    if column !in f.columns then Err(KeyError({column}))
    else Ok(Frame(f.columns, Filter(f.rows, InMask(column, values))))
  }

  /** `frame.query('lo <= column <= hi')`: fails when `column` is not a
      column of the frame; otherwise keeps the same columns and exactly the
      rows whose cell is a number in the closed range. */
  function QueryBetween(f: Frame, column: string, lo: real, hi: real): (r: Result<Frame, FrameError>)
    ensures r.Err? <==> column !in f.columns
    ensures r.Err? ==> r.error == UndefinedVariable(column)
    ensures r.Ok? ==> r.value.columns == f.columns
    ensures r.Ok? ==> r.value.rows == Filter(f.rows, BetweenMask(column, lo, hi))
  {
    if column !in f.columns then Err(UndefinedVariable(column))
    else Ok(Frame(f.columns, Filter(f.rows, BetweenMask(column, lo, hi))))
  }

  /** `frame.iloc[position]`: a negative position counts from the end. */
  function ILoc(rows: seq<Record>, position: int): (r: Result<Record, FrameError>)
    ensures r.Ok? <==> -|rows| <= position < |rows|
    ensures r.Err? ==> r.error == IndexError(position)
    ensures 0 <= position < |rows| ==> r == Ok(rows[position])
    ensures -|rows| <= position < 0 ==> r == Ok(rows[|rows| + position])
  {
    if 0 <= position < |rows| then Ok(rows[position])
    else if -|rows| <= position < 0 then Ok(rows[|rows| + position])
    else Err(IndexError(position))
  }
}
