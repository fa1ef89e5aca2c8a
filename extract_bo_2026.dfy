/** The row mapper for the 2026 results table (preprocessing/extract_bo_2026.py). */
module ExtractBo2026 {
  import opened Wrappers
  import opened Text
  import opened Records
  import opened Tools

  const TitleColumn := "Tytuł"
  const CostColumn := "Koszt projektu"
  const AcceptedColumn := "Czy projekt został\nwybrany?"
  const LocationColumn := "Lokalizacja"

  /** `description_parts`: the name, then the location under its label when filled. */
  function DescriptionParts(name: string, location: Cell): seq<string>
  {
    [name] + (if Filled(location) then ["Lokalizacja: " + location.value] else [])
  }

  /** The description is the name alone, or the name and a location line when the location is filled. */
  lemma DescriptionLines(name: string, location: Cell)
    ensures Join("\n", DescriptionParts(name, location)) ==
            if Filled(location) then name + "\nLokalizacja: " + location.value else name
  {
    var parts := DescriptionParts(name, location);
    if Filled(location) {
      assert parts[1..] == ["Lokalizacja: " + location.value];
    } else {
      assert parts == [name];
    }
  }

  /** The entry built from a title cell: a one-line trimmed name that opens its description. */
  lemma EntryOfTitle(title: string, cost: nat, location: Cell, accepted: bool)
    ensures var name := SingleLine(title);
            var description := Join("\n", DescriptionParts(name, location));
            var e := Entry(name, cost, description, accepted);
            && IsBudgetEntry(e)
            && e["name"] == Str(name) && e["description"] == Str(description)
            && e["cost"] == Int(cost) && e["accepted"] == Bool(accepted)
  {
    var name := SingleLine(title);
    var description := Join("\n", DescriptionParts(name, location));
    DescriptionLines(name, location);
    assert OccursAt(description, name, 0);
    EntryIsBudgetEntry(name, cost, description, accepted);
  }

  /**
   * `process_row_2026`: `None` for a row without a title (the district
   * header rows of this table) or without a readable cost; otherwise the
   * entry built from the title, cost, acceptance and location cells.
   */
  function ProcessRow2026(row: RowMap): (r: Option<Record>)
    ensures r.Some? <==> Filled(Get(row, TitleColumn)) && ExtractCostFromString(Get(row, CostColumn)).Some?
    ensures r.Some? ==> IsBudgetEntry(r.value)
    ensures r.Some? ==> r.value["cost"] == Int(ExtractCostFromString(Get(row, CostColumn)).value)
    ensures r.Some? ==> r.value["accepted"] == Bool(IsProjectAccepted(Get(row, AcceptedColumn)))
    ensures r.Some? ==> r.value["name"] == Str(SingleLine(Get(row, TitleColumn).value))
    ensures r.Some? ==>
              r.value["description"] == Str(Join("\n", DescriptionParts(SingleLine(Get(row, TitleColumn).value), Get(row, LocationColumn))))
  {
    var title := Get(row, TitleColumn);
    if !Filled(title) then None
    else
      var cost := ExtractCostFromString(Get(row, CostColumn));
      if cost.None? then None
      else
        var accepted := IsProjectAccepted(Get(row, AcceptedColumn));
        var name := SingleLine(title.value);
        var description := Join("\n", DescriptionParts(name, Get(row, LocationColumn)));
        EntryOfTitle(title.value, cost.value, Get(row, LocationColumn), accepted);
        Some(Entry(name, cost.value, description, accepted))
  }

  /**
   * Running the 2026 mapper over a document: every extracted record is a
   * budget entry, and there is one per data row with a title and a
   * readable cost.
   */
  lemma Extracted2026(pages: seq<Page>)
    ensures forall e :: e in KeepEntries(ProcessRow2026, DocumentDicts(pages)) ==> IsBudgetEntry(e)
    ensures |KeepEntries(ProcessRow2026, DocumentDicts(pages))| == CountProduced(ProcessRow2026, DocumentDicts(pages))
    ensures Extraction(ProcessRow2026, DocumentDicts(pages)) == Success(KeepEntries(ProcessRow2026, DocumentDicts(pages)))
  {
    var dicts := DocumentDicts(pages);
    forall e | e in KeepEntries(ProcessRow2026, dicts)
      ensures IsBudgetEntry(e) && Loggable(e)
    {
      KeepEntriesMembers(ProcessRow2026, dicts, e);
    }
    forall i | 0 <= i < |dicts| && ProcessRow2026(dicts[i]).Some?
      ensures ProcessRow2026(dicts[i]).value != map[]
    {
      assert "name" in ProcessRow2026(dicts[i]).value;
    }
    KeepEntriesCount(ProcessRow2026, dicts);
    ExtractionSucceeds(ProcessRow2026, dicts);
  }
}
