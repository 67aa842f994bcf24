# Austin Animal Center dashboard: rescue-type filter and selection callbacks

This project models the part of the Grazioso Salvare dashboard
(`src/application/DashboardApp.py`) that decides what the user sees.

- **`radioFilter`** is the callback behind the rescue-type radio buttons.
  Water, mountain and disaster rescue each ask the animal collection for
  documents. Water and mountain rescue ask for dogs only; disaster rescue
  asks for every document. The callback builds a pandas frame from the
  result and drops the store's `_id` column and the unnamed `""` column.
  It then keeps the rows whose breed is in a fixed set and whose
  `sex_upon_outcome` has a fixed value. Last, it keeps the rows whose
  `age_upon_outcome_in_weeks` lies in a closed range. Any other option,
  such as the reset option or the initial value of the radio items, shows
  every document. The table the dashboard starts with is built the same way.
- **`update_styles`** gives one highlight entry per selected row.
- **`update_map`** chooses which row's animal the map shows.

The model is pure, as the source is: datatypes, functions and lemmas.

- The collection is a sequence of documents, kept in the order the store
  returns them.
- A document, and a row of a frame, is a `map<string, Value>`.
- A `Value` is a string (`Text`), a number (`Number`, an exact `real`, since
  ages in weeks are fractional) or `Null`. `Null` stands for a missing
  field, for None and for NaN: none of them equals a string and none lies
  in a range.
- Documents, values and the masks both the store and the frames apply
  (`Filter`) live in module `Records`, which `Store` and `Frames` share.
- `findDocs` is an exact-match query (`Store.FindDocs`).
- The pandas operations the callback uses are functions over a `Frame`:
  a set of columns and a sequence of rows (module `Frames`). The model
  follows their behaviour where it matters:
  - `from_records` takes as its columns every field that some fetched
    document has, and fills the gaps with `Null`.
  - `drop` raises `KeyError` unless every label it names is a column.
  - `frame[column]` raises `KeyError` for a missing column.
  - `query` raises `UndefinedVariable` for a missing column.
  - `iloc` counts negative positions from the end and raises `IndexError`
    outside the frame.
  - Row masks never remove columns. So whether a branch fails depends
    only on the fields of the fetched documents.
- A raised exception is an `Err` result. In the dashboard it means the
  table or map is not updated.

A consequence worth knowing: when a rescue query matches no document, the
frame has no columns at all. The `drop` of `_id` and `""` then raises
`KeyError` (`Dashboard.NothingFetchedIsAnError`), so the callback fails
and the table keeps the rows it showed before, rather than showing an
empty table.

## Model

| member | source | states |
|---|---|---|
| `Dashboard.RadioFilter` | src/application/DashboardApp.py:121-154 | whatever the option, no row of the table carries the `_id` field or the unnamed `""` field |
| `Dashboard.RescueOf` | src/application/DashboardApp.py:123-152 | the three rescue options select their own branch, and every other string falls through to the final `else` |
| `Dashboard.Select` | src/application/DashboardApp.py:125-129 | the breed, sex and age steps fail with `KeyError` on breed, then `KeyError` on sex, then `UndefinedVariable` on age, at the first of those columns the frame lacks; otherwise the columns are kept and the rows are those all three masks keep |
| `Dashboard.SelectKeepsQualifying` | src/application/DashboardApp.py:125-129 | after the masks, every row left passes the breed, sex and inclusive age masks; every input row that passes them is left; the rows left are a subsequence of the input |
| `Dashboard.SelectIdempotent` | src/application/DashboardApp.py:125-149 | applying a branch's masks to their own output gives the same frame back |
| `Dashboard.DropHiddenColumns` | src/application/DashboardApp.py:124 | building the frame and dropping `_id` and `""` fails with a `KeyError` naming the labels no document has; otherwise it gives every document in order, hidden fields removed and missing columns filled with `Null` |
| `Dashboard.BranchExact` | src/application/DashboardApp.py:124-149 | a rescue branch succeeds exactly when the fetched documents have `_id`, `""`, breed, sex and age among their fields; the error is that of the first failing step; on success the rows are exactly the qualifying shown documents, in store order |
| `Dashboard.BranchSound` | src/application/DashboardApp.py:124-149 | every row a rescue branch shows matches the branch's query and its breed, sex and inclusive age masks, and has no hidden field |
| `Dashboard.BranchComplete` | src/application/DashboardApp.py:124-149 | every stored document that matches the query and all masks, and has the two dropped fields, makes the branch succeed and appears in its output |
| `Dashboard.CompleteWhenShown` | src/application/DashboardApp.py:124-149 | once a branch's table is shown, every stored document that matches the query and all masks appears in it, whether or not it has `_id` or `""` itself |
| `Dashboard.BranchRectangular` | src/application/DashboardApp.py:124-129 | every row a branch shows has a cell, possibly `Null`, in exactly the visible columns of the table |
| `Dashboard.BranchKeepsOrder` | src/application/DashboardApp.py:125-149 | a branch's rows are a subsequence of the fetched documents and so of the whole store, shown, in store order; no row appears more often than in the input, and there are no more rows than stored documents |
| `Dashboard.BranchIdempotent` | src/application/DashboardApp.py:124-149 | re-applying a branch's masks to the table it shows changes nothing |
| `Dashboard.NothingFetchedIsAnError` | src/application/DashboardApp.py:124 | when the query matches no document, the branch fails with a `KeyError` naming both `_id` and `""` |
| `Dashboard.RescueProfiles` | src/application/DashboardApp.py:123-149 | the constants of each branch say what its rescue type means: water = Dog, Labrador Retriever Mix, Chesapeake Bay Retriever or Newfoundland, Intact Female, 26 to 156 weeks; mountain = Dog, German Shepherd, Alaskan Malamute, Old English Sheepdog, Siberian Husky or Rottweiler, Intact Male, 26 to 156 weeks; disaster = any animal type, German Shepherd, Doberman Pinscher, Golden Retriever, Bloodhound or Rottweiler, Intact Male, 20 to 300 weeks |
| `Dashboard.WaterRescue` | src/application/DashboardApp.py:123-129 | with the water option every row shown is a water rescue dog, with both age bounds inclusive; every stored water rescue dog that has `_id` and `""` makes the table shown and is in it; once the table is shown, every stored water rescue dog is in it |
| `Dashboard.MountainRescue` | src/application/DashboardApp.py:131-139 | with the mountain option every row shown is a mountain rescue dog; every stored mountain rescue dog that has `_id` and `""` makes the table shown and is in it; once the table is shown, every stored mountain rescue dog is in it |
| `Dashboard.DisasterRescue` | src/application/DashboardApp.py:141-149 | with the disaster option every row shown is a disaster rescue animal, of any animal type; every stored one that has `_id` and `""` makes the table shown and is in it; once the table is shown, every stored disaster rescue animal is in it |
| `Dashboard.AllRecords` | src/application/DashboardApp.py:21 | the unfiltered table fails with a `KeyError` exactly when no document has `_id` or none has `""`; otherwise it is every document, in order, in its shown form |
| `Dashboard.OtherOptionsShowEverything` | src/application/DashboardApp.py:54-152 | every option other than the three rescue types, among them `'Remove all filters'` and the initial `'Filter table by rescue dog types'`, shows the unfiltered table |
| `Dashboard.AllRecordsKeepsEverything` | src/application/DashboardApp.py:151-152 | the unfiltered table has one row per stored document, and each row keeps every visible field of its document unchanged |
| `Store.FindDocsExact` | src/application/CRUDHandler.py:32-40 | `findDocs` returns exactly the documents that have every field of the criteria with the same value, as a subsequence of the collection |
| `Store.FindAllIsEverything` | src/application/CRUDHandler.py:35-40 | the empty criteria `{}` return the whole collection |
| `Frames.FromRecords` | src/application/DashboardApp.py:124 | the frame has one row per document, and every row has a cell in exactly the frame's columns, which are the fields the documents have |
| `Frames.FromRecordsCells` | src/application/DashboardApp.py:124 | row i of the built frame holds document i's value in each field the document has, and `Null` in every other column |
| `Frames.Drop` | src/application/DashboardApp.py:124 | dropping fails exactly when a label is not a column, naming the missing labels; otherwise the labels leave the columns and every row |
| `Frames.WhereIn` | src/application/DashboardApp.py:125-128 | selecting on a column fails exactly when the frame lacks it; otherwise the frame keeps its columns and the rows whose cell is one of the strings |
| `Frames.QueryBetween` | src/application/DashboardApp.py:129 | the range query fails exactly when the frame lacks the column; otherwise it keeps the rows whose cell is a number within both inclusive bounds |
| `Frames.ILoc` | src/application/DashboardApp.py:198-201 | a position inside the frame gives that row, and a negative one counts from the end; any other position raises `IndexError` |
| `Frames.ColumnsMembers` | src/application/DashboardApp.py:124 | a name is a column of the built frame exactly when some fetched document has that field |
| `Selection.UpdateStyles` | src/application/DashboardApp.py:161-166 | one style entry per selected row, in the same order, whose `row_index` is that selected index, with the highlight colour |
| `Selection.HighlightsExactlySelected` | src/application/DashboardApp.py:163-166 | a row index is highlighted exactly when it is among the selected rows |
| `Selection.ChooseMapRow` | src/application/DashboardApp.py:193-201 | with no selection the map shows row 0, or `IndexError` on an empty table; otherwise it shows the row at the first selected index, counting a negative index from the end, or raises `IndexError` outside the rows; the rows are the page, or the initial table when there is no page yet |
| `Selection.ChooseMapRowMixesUpPages` | src/application/DashboardApp.py:187-201 | on the second page of twenty rows, the selection `[3]` shows row 13 instead of row 3, and the selection `[12]` raises `IndexError` |
| `Selection.ChooseSelectedAnimal` | src/application/DashboardApp.py:191-201 | with no selection the first row of the current page; with a selection the selected animal itself |
| `Selection.SelectedAnimalIgnoresPage` | src/application/DashboardApp.py:199-201 | the corrected choice shows the selected animal whichever page is displayed |

## Findings

| source | as written | input that shows it | evidently intended | confidence | as-written member | corrected member |
|---|---|---|---|---|---|---|
| src/application/DashboardApp.py:187-201 | `update_map` uses `derived_virtual_selected_rows[0]` to index `derived_viewport_data`. That index is a position among all the table's rows. `derived_viewport_data` is only the current page. | 20 rows, page size 10, second page shown. Selecting row 3 on the first page and then turning the page shows row 13. Selecting row 12 raises `IndexError`, so the map is not updated. | The comment at line 199 says that when a row is selected the map displays that animal (the docstring at line 191 only describes the default, the top row of the current page, when nothing is selected): index all rows (`derived_virtual_data`) with the selected position | medium: rests on the data table's documented meaning of `derived_virtual_selected_rows`; not executed | `Selection.ChooseMapRowMixesUpPages` | `Selection.ChooseSelectedAnimal` |

## Left out

- `src/application/CRUDHandler.py` beyond the exact-match read. `create`, `update` and `delete` forward to the database client, and their semantics live in that client. The missing-argument `raise` in `update` and `delete` (lines 69 and 103) sits inside the `try`, so the bare `except` swallows it and the method returns `None`.
- Store.FindDocs: `findDocs(None)` raises; the dashboard never passes `None`, so the criteria are a map. Matching inside array fields, and the store's own result order, are not modelled; the model keeps the collection's order.
- The database connection and credentials (DashboardApp.py:16-18): I/O.
- The Dash layout, callback registration, data table settings, the pie chart of `update_graph` and the Leaflet map (DashboardApp.py:27-110, 157-160, 169-182, 208-222): UI and third-party rendering.
- Reading and base64-encoding the logo (DashboardApp.py:32-33): file I/O.
- The positional columns `selected_animal[12]`, `[13]`, `[3]` and `[8]` in `update_map` (DashboardApp.py:203-206). They depend on the column order of the frame, which the code does not fix. The model keeps the columns as a set.
- Stored values other than strings, numbers and None: the ObjectId in `_id`, booleans, dates, arrays and embedded documents have no `Value`. `_id` is dropped before anything reads it, and the mask columns are compared as strings or numbers, so the rows shown do not depend on them.
- Frames.QueryBetween: a text age makes pandas raise a `TypeError` in the comparison. The model treats such a cell as outside the range.
- Frames.WhereIn: a frame whose breed or sex column holds non-string values is compared cell by cell. Those cells never equal the strings, as in pandas. pandas dtypes are not modelled otherwise.
- Dashboard.RadioFilter: an exception in a callback leaves the output unchanged. The model returns it as an `Err` value, and what the dashboard then displays is not modelled.
