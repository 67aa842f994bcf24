/**
  The rescue-type filter behind the dashboard's radio buttons (`radioFilter`
  in DashboardApp.py). Each rescue type fetches documents with an exact-match
  query, builds a frame, drops the `_id` and unnamed `""` columns, keeps the
  rows whose breed is in a fixed set, whose sex is a fixed value and whose
  age in weeks lies in a closed range, and hands the rows to the table. Any
  other option shows every document.
 */
module Dashboard {
  import opened Wrappers
  import opened Records
  import opened Frames
  import opened Store

  // The values of the radio items.
  const WaterOption := "Filter by Water Rescue"
  const MountainOption := "Filter by Mountain Rescue"
  const DisasterOption := "Filter by Disaster Rescue"
  const ResetOption := "Remove all filters"
  /** The value the radio items start with; no branch tests for it. */
  const InitialOption := "Filter table by rescue dog types"

  // Column names.
  const AnimalType := "animal_type"
  const Breed := "breed"
  const Sex := "sex_upon_outcome"
  const Age := "age_upon_outcome_in_weeks"

  /** The columns every table drops: the store's identifier and the unnamed column. */
  const Hidden: set<string> := {"_id", ""}

  /** The columns the three row masks read. */
  const MaskColumns: set<string> := {Breed, Sex, Age}

  datatype Rescue = Water | Mountain | Disaster

  /** Which branch of the filter an option selects; `None` is the final `else`. */
  function RescueOf(option: string): (r: Option<Rescue>)
    ensures r == Some(Water) <==> option == WaterOption
    ensures r == Some(Mountain) <==> option == MountainOption
    ensures r == Some(Disaster) <==> option == DisasterOption
    ensures r.None? <==> option !in {WaterOption, MountainOption, DisasterOption}
  {
    if option == WaterOption then Some(Water)
    else if option == MountainOption then Some(Mountain)
    else if option == DisasterOption then Some(Disaster)
    else None
  }

  /** One branch's fixed parameters: the query sent to the store, the breeds,
      the sex and the inclusive age range in weeks. */
  datatype Criteria = Criteria(lookup: Record, breeds: set<string>, sex: string, minAge: real, maxAge: real)

  const DogsOnly: Record := map[AnimalType := Text("Dog")]

  function CriteriaOf(rescue: Rescue): Criteria {
    match rescue
    case Water =>
      Criteria(DogsOnly, {"Labrador Retriever Mix", "Chesapeake Bay Retriever", "Newfoundland"},
               "Intact Female", 26.0, 156.0)
    case Mountain =>
      Criteria(DogsOnly, {"German Shepherd", "Alaskan Malamute", "Old English Sheepdog", "Siberian Husky", "Rottweiler"},
               "Intact Male", 26.0, 156.0)
    case Disaster =>
      Criteria(map[], {"German Shepherd", "Doberman Pinscher", "Golden Retriever", "Bloodhound", "Rottweiler"},
               "Intact Male", 20.0, 300.0)
  }

  /** A row passes the three masks of a branch. */
  predicate Qualifies(c: Criteria, row: Record) {
    CellIn(row, Breed, c.breeds) && CellIn(row, Sex, {c.sex}) && CellBetween(row, Age, c.minAge, c.maxAge)
  }

  function QualifyMask(c: Criteria): Record -> bool {
    row => Qualifies(c, row)
  }

  /** A record meets everything a branch asks of it: the query and the masks. */
  predicate Eligible(c: Criteria, record: Record) {
    Matches(c.lookup, record) && Qualifies(c, record)
  }

  lemma {:induction false} MasksFuse(c: Criteria, rows: seq<Record>)
    ensures Filter(Filter(Filter(rows, InMask(Breed, c.breeds)), InMask(Sex, {c.sex})),
                   BetweenMask(Age, c.minAge, c.maxAge))
            == Filter(rows, QualifyMask(c))
  {
    var breedAndSex := row => CellIn(row, Breed, c.breeds) && CellIn(row, Sex, {c.sex});
    FilterFuse(rows, InMask(Breed, c.breeds), InMask(Sex, {c.sex}), breedAndSex);
    FilterFuse(rows, breedAndSex, BetweenMask(Age, c.minAge, c.maxAge), QualifyMask(c));
  }

  /** The three `.loc`/`.query` steps of a branch on a frame. The first
      column the frame lacks decides the exception; with all three present
      the frame keeps its columns and the rows all three masks keep. */
  function Select(c: Criteria, f: Frame): (r: Result<Frame, FrameError>)
    ensures r.Ok? <==> MaskColumns <= f.columns
    ensures Breed !in f.columns ==> r == Err(KeyError({Breed}))
    ensures Breed in f.columns && Sex !in f.columns ==> r == Err(KeyError({Sex}))
    ensures Breed in f.columns && Sex in f.columns && Age !in f.columns ==> r == Err(UndefinedVariable(Age))
    ensures r.Ok? ==> r.value == Frame(f.columns, Filter(f.rows, QualifyMask(c)))
  {
    var byBreed :- WhereIn(f, Breed, c.breeds);
    var bySex :- WhereIn(byBreed, Sex, {c.sex});
    var byAge :- QueryBetween(bySex, Age, c.minAge, c.maxAge);
    MasksFuse(c, f.rows);
    Ok(byAge)
  }

  /** The masks only drop rows: what is left is exactly the qualifying rows,
      in their order. */
  lemma SelectKeepsQualifying(c: Criteria, f: Frame)
    requires MaskColumns <= f.columns
    ensures var rows := Select(c, f).value.rows;
      && (forall i :: 0 <= i < |rows| ==> rows[i] in f.rows && Qualifies(c, rows[i]))
      && (forall i :: 0 <= i < |f.rows| && Qualifies(c, f.rows[i]) ==> f.rows[i] in rows)
      && IsSubsequence(rows, f.rows)
  {
    FilterMembers(f.rows, QualifyMask(c));
    FilterIsSubsequence(f.rows, QualifyMask(c));
  }

  /** Applying a branch's masks to their own output changes nothing. */
  lemma SelectIdempotent(c: Criteria, f: Frame)
    requires Select(c, f).Ok?
    ensures Select(c, Select(c, f).value) == Select(c, f)
  {
    var g := Select(c, f).value;
    MasksFuse(c, f.rows);
    MasksFuse(c, g.rows);
    FilterIdempotent(f.rows, QualifyMask(c));
  }

  // ---------------------------------------------------------------------
  // From documents to table rows
  // ---------------------------------------------------------------------

  /** A document as a table row: hidden fields gone, every other column of
      the table present, `Null` where the document has no such field. */
  function Shown(doc: Record, columns: set<string>): Record {
    Fill(doc, columns - Hidden)
  }

  function ShownAll(docs: seq<Record>, columns: set<string>): seq<Record> {
    seq(|docs|, i requires 0 <= i < |docs| => Shown(docs[i], columns))
  }

  /** Showing keeps a subsequence a subsequence. */
  lemma {:induction false} ShownAllSubsequence(xs: seq<Record>, ys: seq<Record>, columns: set<string>)
    requires IsSubsequence(xs, ys)
    ensures IsSubsequence(ShownAll(xs, columns), ShownAll(ys, columns))
    decreases |ys|
  {
    if xs != [] {
      assert ShownAll(ys, columns)[1..] == ShownAll(ys[1..], columns);
      assert ShownAll(xs, columns)[1..] == ShownAll(xs[1..], columns);
      if xs[0] == ys[0] && IsSubsequence(xs[1..], ys[1..]) {
        ShownAllSubsequence(xs[1..], ys[1..], columns);
      } else {
        ShownAllSubsequence(xs, ys[1..], columns);
      }
    }
  }

  lemma DroppedRow(docs: seq<Record>, i: int)
    requires 0 <= i < |docs| && Hidden <= Columns(docs)
    ensures Drop(FromRecords(docs), Hidden).value.rows[i] == Shown(docs[i], Columns(docs))
  {
    FillWithout(docs[i], Columns(docs), Hidden);
  }

  lemma DroppedRows(docs: seq<Record>)
    requires Hidden <= Columns(docs)
    ensures Drop(FromRecords(docs), Hidden).value.rows == ShownAll(docs, Columns(docs))
  {
    var rows := Drop(FromRecords(docs), Hidden).value.rows;
    var shown := ShownAll(docs, Columns(docs));
    assert |rows| == |shown|;
    forall i | 0 <= i < |docs| ensures rows[i] == shown[i] {
      DroppedRow(docs, i);
    }
  }

  /** Building the frame and dropping the hidden columns yields the shown
      form of every document, in order, or the `KeyError` of the drop. */
  lemma DropHiddenColumns(docs: seq<Record>)
    ensures Hidden <= Columns(docs) ==>
      Drop(FromRecords(docs), Hidden) == Ok(Frame(Columns(docs) - Hidden, ShownAll(docs, Columns(docs))))
    ensures !(Hidden <= Columns(docs)) ==> Drop(FromRecords(docs), Hidden) == Err(KeyError(Hidden - Columns(docs)))
  {
    if Hidden <= Columns(docs) {
      DroppedRows(docs);
    }
  }

  /** The columns of the frame a branch builds: every field of a fetched document. */
  function TableColumns(c: Criteria, store: seq<Record>): set<string> {
    Columns(FindDocs(store, c.lookup))
  }

  /** One branch of `radioFilter` with its parameters: query the store,
      build the frame, drop the hidden columns, apply the masks. */
  function Branch(c: Criteria, store: seq<Record>): Result<seq<Record>, FrameError> {
    var table :- Drop(FromRecords(FindDocs(store, c.lookup)), Hidden);
    var selected :- Select(c, table);
    Ok(selected.rows)
  }

  lemma MasksNotHidden(cols: set<string>)
    ensures MaskColumns <= cols - Hidden <==> MaskColumns <= cols
    ensures forall column :: column in MaskColumns ==> (column in cols - Hidden <==> column in cols)
  {
  }

  /** What the fetched documents become once the hidden columns are dropped. */
  function Unmasked(c: Criteria, store: seq<Record>): Frame {
    Frame(TableColumns(c, store) - Hidden, ShownAll(FindDocs(store, c.lookup), TableColumns(c, store)))
  }

  lemma BranchAfterDrop(c: Criteria, store: seq<Record>)
    requires Hidden <= TableColumns(c, store)
    ensures Drop(FromRecords(FindDocs(store, c.lookup)), Hidden) == Ok(Unmasked(c, store))
    ensures Branch(c, store) ==
      if Select(c, Unmasked(c, store)).Ok? then Ok(Select(c, Unmasked(c, store)).value.rows)
      else Err(Select(c, Unmasked(c, store)).error)
  {
    DropHiddenColumns(FindDocs(store, c.lookup));
  }

  /** A branch in terms of the store alone. It fails exactly when the
      fetched documents lack one of the dropped or masked columns, with the
      exception of the first step that finds one missing; otherwise it shows,
      in store order, the shown form of each fetched document that passes
      the masks. */
  lemma BranchExact(c: Criteria, store: seq<Record>)
    ensures Branch(c, store).Ok? <==> Hidden + MaskColumns <= TableColumns(c, store)
    ensures !(Hidden <= TableColumns(c, store)) ==>
      Branch(c, store) == Err(KeyError(Hidden - TableColumns(c, store)))
    ensures Hidden <= TableColumns(c, store) && Breed !in TableColumns(c, store) ==>
      Branch(c, store) == Err(KeyError({Breed}))
    ensures Hidden + {Breed} <= TableColumns(c, store) && Sex !in TableColumns(c, store) ==>
      Branch(c, store) == Err(KeyError({Sex}))
    ensures Hidden + {Breed, Sex} <= TableColumns(c, store) && Age !in TableColumns(c, store) ==>
      Branch(c, store) == Err(UndefinedVariable(Age))
    ensures Branch(c, store).Ok? ==>
      Branch(c, store).value == Filter(ShownAll(FindDocs(store, c.lookup), TableColumns(c, store)), QualifyMask(c))
  {
    var cols := TableColumns(c, store);
    DropHiddenColumns(FindDocs(store, c.lookup));
    if Hidden <= cols {
      BranchAfterDrop(c, store);
      var table := Unmasked(c, store);
      assert Select(c, table).Ok? <==> MaskColumns <= table.columns;
      assert table.columns == cols - Hidden;
      MasksNotHidden(cols);
    }
  }

  /** The final `else` of `radioFilter`, and the table the dashboard starts
      with: every document, hidden columns dropped. */
  function AllRecords(store: seq<Record>): (r: Result<seq<Record>, FrameError>)
    ensures r.Ok? <==> Hidden <= Columns(store)
    ensures r.Err? ==> r.error == KeyError(Hidden - Columns(store))
    ensures r.Ok? ==> r.value == ShownAll(store, Columns(store))
  {
    FindAllIsEverything(store);
    DropHiddenColumns(store);
    var table :- Drop(FromRecords(FindDocs(store, map[])), Hidden);
    Ok(table.rows)
  }

  /** `radioFilter`: the rows the table shows for a radio option. Whatever
      the option, no row carries the store's identifier or the unnamed field. */
  function RadioFilter(option: string, store: seq<Record>): (r: Result<seq<Record>, FrameError>)
    ensures r.Ok? ==> forall i :: 0 <= i < |r.value| ==> "_id" !in r.value[i] && "" !in r.value[i]
  {
    match RescueOf(option)
    case Some(rescue) =>
      BranchSound(CriteriaOf(rescue), store);
      Branch(CriteriaOf(rescue), store)
    case None =>
      ShownAllHides(store, Columns(store));
      AllRecords(store)
  }

  // ---------------------------------------------------------------------
  // What a branch shows
  // ---------------------------------------------------------------------

  /** The branch parameters the program uses: the query looks only at
      visible fields and never asks for a missing value. */
  predicate WellFormed(c: Criteria) {
    Hidden !! c.lookup.Keys && forall k :: k in c.lookup ==> c.lookup[k] != Null
  }

  lemma CriteriaWellFormed(rescue: Rescue)
    ensures WellFormed(CriteriaOf(rescue))
  {
    assert AnimalType !in Hidden;
  }

  lemma ShownAllHides(docs: seq<Record>, columns: set<string>)
    ensures forall i :: 0 <= i < |ShownAll(docs, columns)| ==> Hidden !! ShownAll(docs, columns)[i].Keys
  {
  }

  /** A shown row keeps every visible field of its document. */
  lemma ShownKeepsFields(doc: Record, columns: set<string>)
    requires doc.Keys <= columns
    ensures Shown(doc, columns).Keys == columns - Hidden
    ensures forall k :: k in doc && k !in Hidden ==> k in Shown(doc, columns) && Shown(doc, columns)[k] == doc[k]
    ensures forall k :: k in Shown(doc, columns) && k !in doc ==> Shown(doc, columns)[k] == Null
  {
  }

  /** Showing a document neither makes it eligible nor ineligible. */
  lemma ShownEligible(c: Criteria, doc: Record, columns: set<string>)
    requires WellFormed(c) && doc.Keys <= columns
    ensures Eligible(c, Shown(doc, columns)) <==> Eligible(c, doc)
  {
    var row := Shown(doc, columns);
    ShownKeepsFields(doc, columns);
    MasksNotHidden(columns);
    assert Breed !in Hidden && Sex !in Hidden && Age !in Hidden;
    if Matches(c.lookup, doc) {
      forall k | k in c.lookup ensures k in row && row[k] == c.lookup[k] {
        assert k !in Hidden;
      }
    }
    if Matches(c.lookup, row) {
      forall k | k in c.lookup ensures k in doc && doc[k] == c.lookup[k] {
        assert row[k] == c.lookup[k] != Null;
      }
    }
  }

  /** Every row a branch shows meets the branch's query and masks and
      carries no hidden field. */
  lemma BranchSound(c: Criteria, store: seq<Record>)
    requires WellFormed(c)
    ensures Branch(c, store).Ok? ==> forall i :: 0 <= i < |Branch(c, store).value| ==>
      Eligible(c, Branch(c, store).value[i]) && Hidden !! Branch(c, store).value[i].Keys
  {
    if Branch(c, store).Ok? {
      BranchExact(c, store);
      var docs := FindDocs(store, c.lookup);
      var cols := TableColumns(c, store);
      var shown := ShownAll(docs, cols);
      var rows := Branch(c, store).value;
      FilterMembers(shown, QualifyMask(c));
      FindDocsExact(store, c.lookup);
      forall i | 0 <= i < |rows| ensures Eligible(c, rows[i]) && Hidden !! rows[i].Keys {
        assert rows[i] in shown && QualifyMask(c)(rows[i]);
        var j :| 0 <= j < |shown| && shown[j] == rows[i];
        ColumnsCover(docs, j);
        ShownEligible(c, docs[j], cols);
      }
    }
  }

  /** Every document of the store that meets the branch's query and masks,
      and has the two fields the table drops, is shown. */
  lemma BranchComplete(c: Criteria, store: seq<Record>, doc: Record)
    requires WellFormed(c)
    requires doc in store && Eligible(c, doc) && Hidden <= doc.Keys
    ensures Branch(c, store).Ok? && Shown(doc, TableColumns(c, store)) in Branch(c, store).value
  {
    BranchExact(c, store);
    var docs := FindDocs(store, c.lookup);
    var cols := TableColumns(c, store);
    var shown := ShownAll(docs, cols);
    FindDocsExact(store, c.lookup);
    FilterMembers(shown, QualifyMask(c));
    var j :| 0 <= j < |docs| && docs[j] == doc;
    ColumnsCover(docs, j);
    assert MaskColumns <= doc.Keys;
    ShownEligible(c, doc, cols);
    assert shown[j] == Shown(doc, cols) && QualifyMask(c)(shown[j]);
  }

  /** Once the table is shown, every document of the store that meets the
      branch's query and masks is among its rows, whether or not it has the
      two dropped fields itself. */
  lemma CompleteWhenShown(c: Criteria, store: seq<Record>, doc: Record)
    requires WellFormed(c) && Branch(c, store).Ok?
    requires doc in store && Eligible(c, doc)
    ensures Shown(doc, TableColumns(c, store)) in Branch(c, store).value
  {
    BranchExact(c, store);
    var docs := FindDocs(store, c.lookup);
    var cols := TableColumns(c, store);
    var shown := ShownAll(docs, cols);
    FindDocsExact(store, c.lookup);
    FilterMembers(shown, QualifyMask(c));
    var j :| 0 <= j < |docs| && docs[j] == doc;
    ColumnsCover(docs, j);
    ShownEligible(c, doc, cols);
    assert shown[j] == Shown(doc, cols) && QualifyMask(c)(shown[j]);
  }

  /** Every row a branch shows has a cell in each visible column of the
      table, and in no other. */
  lemma BranchRectangular(c: Criteria, store: seq<Record>)
    requires Branch(c, store).Ok?
    ensures Rectangular(Frame(TableColumns(c, store) - Hidden, Branch(c, store).value))
  {
    BranchExact(c, store);
    var cols := TableColumns(c, store);
    var shown := ShownAll(FindDocs(store, c.lookup), cols);
    FilterMembers(shown, QualifyMask(c));
    var rows := Branch(c, store).value;
    forall i | 0 <= i < |rows| ensures rows[i].Keys == cols - Hidden {
      var j :| 0 <= j < |shown| && shown[j] == rows[i];
    }
  }

  /** The masks only drop rows: a branch shows its fetched documents in
      store order, none twice, none added, and so shows a subsequence of
      the whole store. */
  lemma BranchKeepsOrder(c: Criteria, store: seq<Record>)
    requires Branch(c, store).Ok?
    ensures IsSubsequence(Branch(c, store).value, ShownAll(FindDocs(store, c.lookup), TableColumns(c, store)))
    ensures multiset(Branch(c, store).value) <= multiset(ShownAll(FindDocs(store, c.lookup), TableColumns(c, store)))
    ensures |Branch(c, store).value| <= |store|
    ensures IsSubsequence(Branch(c, store).value, ShownAll(store, TableColumns(c, store)))
  {
    BranchExact(c, store);
    var cols := TableColumns(c, store);
    var shown := ShownAll(FindDocs(store, c.lookup), cols);
    FilterIsSubsequence(shown, QualifyMask(c));
    SubsequenceMultiset(Branch(c, store).value, shown);
    FindDocsExact(store, c.lookup);
    ShownAllSubsequence(FindDocs(store, c.lookup), store, cols);
    SubsequenceTransitive(Branch(c, store).value, shown, ShownAll(store, cols));
  }

  /** Applying a branch's masks to the table it shows changes nothing. */
  lemma BranchIdempotent(c: Criteria, store: seq<Record>)
    requires Branch(c, store).Ok?
    ensures var shown := Frame(TableColumns(c, store) - Hidden, Branch(c, store).value);
      Select(c, shown) == Ok(shown)
  {
    BranchExact(c, store);
    BranchAfterDrop(c, store);
    SelectIdempotent(c, Unmasked(c, store));
  }

  /** When the query matches no document the frame has no columns, so the
      drop fails and the table is not updated. */
  lemma NothingFetchedIsAnError(c: Criteria, store: seq<Record>)
    requires FindDocs(store, c.lookup) == []
    ensures Branch(c, store) == Err(KeyError(Hidden))
  {
    BranchExact(c, store);
    assert TableColumns(c, store) == {};
    assert Hidden - TableColumns(c, store) == Hidden;
  }

  // ---------------------------------------------------------------------
  // The radio options
  // ---------------------------------------------------------------------

  predicate HasText(row: Record, column: string, s: string) {
    column in row && row[column] == Text(s)
  }

  /** Water rescue: intact female Labrador Retriever mixes, Chesapeake Bay
      Retrievers and Newfoundlands aged 26 to 156 weeks, both inclusive. */
  predicate WaterRescueDog(r: Record) {
    && HasText(r, "animal_type", "Dog")
    && (HasText(r, "breed", "Labrador Retriever Mix") || HasText(r, "breed", "Chesapeake Bay Retriever")
        || HasText(r, "breed", "Newfoundland"))
    && HasText(r, "sex_upon_outcome", "Intact Female")
    && CellBetween(r, "age_upon_outcome_in_weeks", 26.0, 156.0)
  }

  /** Mountain rescue: intact male German Shepherds, Alaskan Malamutes, Old
      English Sheepdogs, Siberian Huskies and Rottweilers aged 26 to 156 weeks. */
  predicate MountainRescueDog(r: Record) {
    && HasText(r, "animal_type", "Dog")
    && (HasText(r, "breed", "German Shepherd") || HasText(r, "breed", "Alaskan Malamute")
        || HasText(r, "breed", "Old English Sheepdog") || HasText(r, "breed", "Siberian Husky")
        || HasText(r, "breed", "Rottweiler"))
    && HasText(r, "sex_upon_outcome", "Intact Male")
    && CellBetween(r, "age_upon_outcome_in_weeks", 26.0, 156.0)
  }

  /** Disaster rescue: intact male German Shepherds, Doberman Pinschers,
      Golden Retrievers, Bloodhounds and Rottweilers aged 20 to 300 weeks,
      whatever their animal type. */
  predicate DisasterRescueAnimal(r: Record) {
    && (HasText(r, "breed", "German Shepherd") || HasText(r, "breed", "Doberman Pinscher")
        || HasText(r, "breed", "Golden Retriever") || HasText(r, "breed", "Bloodhound")
        || HasText(r, "breed", "Rottweiler"))
    && HasText(r, "sex_upon_outcome", "Intact Male")
    && CellBetween(r, "age_upon_outcome_in_weeks", 20.0, 300.0)
  }

  /** The branch parameters say what each rescue type promises. */
  lemma RescueProfiles(r: Record)
    ensures Eligible(CriteriaOf(Water), r) <==> WaterRescueDog(r)
    ensures Eligible(CriteriaOf(Mountain), r) <==> MountainRescueDog(r)
    ensures Eligible(CriteriaOf(Disaster), r) <==> DisasterRescueAnimal(r)
  {
    assert Matches(DogsOnly, r) <==> HasText(r, "animal_type", "Dog");
  }

  /** The water rescue option shows exactly the water rescue dogs. */
  lemma WaterRescue(store: seq<Record>, doc: Record)
    ensures RadioFilter(WaterOption, store).Ok? ==>
      forall i :: 0 <= i < |RadioFilter(WaterOption, store).value| ==>
        WaterRescueDog(RadioFilter(WaterOption, store).value[i])
    ensures doc in store && "_id" in doc && "" in doc && WaterRescueDog(doc) ==>
      RadioFilter(WaterOption, store).Ok?
      && Shown(doc, TableColumns(CriteriaOf(Water), store)) in RadioFilter(WaterOption, store).value
    ensures RadioFilter(WaterOption, store).Ok? && doc in store && WaterRescueDog(doc) ==>
      Shown(doc, TableColumns(CriteriaOf(Water), store)) in RadioFilter(WaterOption, store).value
  {
    var c := CriteriaOf(Water);
    CriteriaWellFormed(Water);
    BranchSound(c, store);
    forall r: Record ensures Eligible(c, r) <==> WaterRescueDog(r) {
      RescueProfiles(r);
    }
    if doc in store && "_id" in doc && "" in doc && WaterRescueDog(doc) {
      BranchComplete(c, store, doc);
    }
    if RadioFilter(WaterOption, store).Ok? && doc in store && WaterRescueDog(doc) {
      CompleteWhenShown(c, store, doc);
    }
  }

  /** The mountain rescue option shows exactly the mountain rescue dogs. */
  lemma MountainRescue(store: seq<Record>, doc: Record)
    ensures RadioFilter(MountainOption, store).Ok? ==>
      forall i :: 0 <= i < |RadioFilter(MountainOption, store).value| ==>
        MountainRescueDog(RadioFilter(MountainOption, store).value[i])
    ensures doc in store && "_id" in doc && "" in doc && MountainRescueDog(doc) ==>
      RadioFilter(MountainOption, store).Ok?
      && Shown(doc, TableColumns(CriteriaOf(Mountain), store)) in RadioFilter(MountainOption, store).value
    ensures RadioFilter(MountainOption, store).Ok? && doc in store && MountainRescueDog(doc) ==>
      Shown(doc, TableColumns(CriteriaOf(Mountain), store)) in RadioFilter(MountainOption, store).value
  {
    var c := CriteriaOf(Mountain);
    CriteriaWellFormed(Mountain);
    BranchSound(c, store);
    forall r: Record ensures Eligible(c, r) <==> MountainRescueDog(r) {
      RescueProfiles(r);
    }
    if doc in store && "_id" in doc && "" in doc && MountainRescueDog(doc) {
      BranchComplete(c, store, doc);
    }
    if RadioFilter(MountainOption, store).Ok? && doc in store && MountainRescueDog(doc) {
      CompleteWhenShown(c, store, doc);
    }
  }

  /** The disaster rescue option shows exactly the disaster rescue animals. */
  lemma DisasterRescue(store: seq<Record>, doc: Record)
    ensures RadioFilter(DisasterOption, store).Ok? ==>
      forall i :: 0 <= i < |RadioFilter(DisasterOption, store).value| ==>
        DisasterRescueAnimal(RadioFilter(DisasterOption, store).value[i])
    ensures doc in store && "_id" in doc && "" in doc && DisasterRescueAnimal(doc) ==>
      RadioFilter(DisasterOption, store).Ok?
      && Shown(doc, TableColumns(CriteriaOf(Disaster), store)) in RadioFilter(DisasterOption, store).value
    ensures RadioFilter(DisasterOption, store).Ok? && doc in store && DisasterRescueAnimal(doc) ==>
      Shown(doc, TableColumns(CriteriaOf(Disaster), store)) in RadioFilter(DisasterOption, store).value
  {
    var c := CriteriaOf(Disaster);
    CriteriaWellFormed(Disaster);
    BranchSound(c, store);
    forall r: Record ensures Eligible(c, r) <==> DisasterRescueAnimal(r) {
      RescueProfiles(r);
    }
    if doc in store && "_id" in doc && "" in doc && DisasterRescueAnimal(doc) {
      BranchComplete(c, store, doc);
    }
    if RadioFilter(DisasterOption, store).Ok? && doc in store && DisasterRescueAnimal(doc) {
      CompleteWhenShown(c, store, doc);
    }
  }

  /** Every option other than the three rescue types, among them the reset
      option and the value the radio items start with, shows every document. */
  lemma OtherOptionsShowEverything(option: string, store: seq<Record>)
    requires option !in {WaterOption, MountainOption, DisasterOption}
    ensures RadioFilter(option, store) == AllRecords(store)
    ensures RadioFilter(ResetOption, store) == AllRecords(store)
    ensures RadioFilter(InitialOption, store) == AllRecords(store)
  {
  }

  /** Showing every document keeps each of them, in store order, with all of
      its visible fields. */
  lemma AllRecordsKeepsEverything(store: seq<Record>)
    requires AllRecords(store).Ok?
    ensures |AllRecords(store).value| == |store|
    ensures forall i, k :: 0 <= i < |store| && k in store[i] && k !in Hidden ==>
      k in AllRecords(store).value[i] && AllRecords(store).value[i][k] == store[i][k]
  {
    forall i, k | 0 <= i < |store| && k in store[i] && k !in Hidden
      ensures k in AllRecords(store).value[i] && AllRecords(store).value[i][k] == store[i][k]
    {
      ColumnsCover(store, i);
      ShownKeepsFields(store[i], Columns(store));
    }
  }
}
