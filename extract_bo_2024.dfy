/** The row mapper for the 2024 results table (preprocessing/extract_bo_2024.py). */
module ExtractBo2024 {
  import opened Wrappers
  import opened Text
  import opened Records
  import opened Tools

  const TitleColumn := "Tytuł projektu"
  const CostColumn := "Szacowany\nkoszt realizacji"
  const AcceptedColumn := "Czy projekt\nzostał wybrany?"
  const LocationColumn := "Lokalizacja"
  const ScopeColumn := "Zakres"

  /** `description_parts`: the name, then each filled optional cell under its label. */
  function DescriptionParts(name: string, location: Cell, scope: Cell): seq<string>
  {
    [name]
    + (if Filled(location) then ["Lokalizacja: " + location.value] else [])
    + (if Filled(scope) then ["Zakres: " + scope.value] else [])
  }

  /**
   * The description as a conditional concatenation: the name, then a line
   * for the location and a line for the scope, each only when filled.
   */
  lemma DescriptionLines(name: string, location: Cell, scope: Cell)
    ensures Join("\n", DescriptionParts(name, location, scope)) ==
            name
            + (if Filled(location) then "\n" + ("Lokalizacja: " + location.value) else "")
            + (if Filled(scope) then "\n" + ("Zakres: " + scope.value) else "")
  {
    var more := (if Filled(location) then ["Lokalizacja: " + location.value] else [])
                + (if Filled(scope) then ["Zakres: " + scope.value] else []);
    ConcatAssociative([name], if Filled(location) then ["Lokalizacja: " + location.value] else [],
                      if Filled(scope) then ["Zakres: " + scope.value] else []);
    JoinFirst("\n", name, more);
    if Filled(location) && Filled(scope) {
      var l, z := "Lokalizacja: " + location.value, "Zakres: " + scope.value;
      assert more == [l] + [z];
      JoinFirst("\n", l, [z]);
      ConcatAssociative("\n", l, "\n" + z);
      ConcatAssociative(name, "\n" + l, "\n" + z);
    } else if Filled(location) {
      assert more == ["Lokalizacja: " + location.value];
    } else if Filled(scope) {
      assert more == ["Zakres: " + scope.value];
    } else {
      assert name + "" == name;
    }
  }

  /** The description opens with the name, and is the name alone exactly when both optional cells are empty. */
  lemma DescriptionStartsWithName(name: string, location: Cell, scope: Cell)
    ensures var d := Join("\n", DescriptionParts(name, location, scope));
            |name| <= |d| && d[..|name|] == name
            && (d == name <==> !Filled(location) && !Filled(scope))
  {
    DescriptionLines(name, location, scope);
  }

  /** The entry built from a title cell: a one-line trimmed name that opens its description. */
  lemma EntryOfTitle(title: string, cost: nat, location: Cell, scope: Cell, accepted: bool)
    ensures var name := SingleLine(title);
            var description := Join("\n", DescriptionParts(name, location, scope));
            var e := Entry(name, cost, description, accepted);
            && IsBudgetEntry(e)
            && e["name"] == Str(name) && e["description"] == Str(description)
            && e["cost"] == Int(cost) && e["accepted"] == Bool(accepted)
  {
    var name := SingleLine(title);
    var description := Join("\n", DescriptionParts(name, location, scope));
    DescriptionStartsWithName(name, location, scope);
    assert OccursAt(description, name, 0);
    EntryIsBudgetEntry(name, cost, description, accepted);
  }

  /**
   * `process_row_2024`: `None` for a row without a title or without a
   * readable cost; otherwise the entry built from the title, cost,
   * acceptance, location and scope cells.
   */
  function ProcessRow2024(row: RowMap): (r: Option<Record>)
    ensures r.Some? <==> Filled(Get(row, TitleColumn)) && ExtractCostFromString(Get(row, CostColumn)).Some?
    ensures r.Some? ==> IsBudgetEntry(r.value)
    ensures r.Some? ==> r.value["cost"] == Int(ExtractCostFromString(Get(row, CostColumn)).value)
    ensures r.Some? ==> r.value["accepted"] == Bool(IsProjectAccepted(Get(row, AcceptedColumn)))
    ensures r.Some? ==> r.value["name"] == Str(SingleLine(Get(row, TitleColumn).value))
    ensures r.Some? ==>
              r.value["description"] ==
              Str(Join("\n", DescriptionParts(SingleLine(Get(row, TitleColumn).value), Get(row, LocationColumn), Get(row, ScopeColumn))))
  {
    var title := Get(row, TitleColumn);
    if !Filled(title) then None
    else
      var cost := ExtractCostFromString(Get(row, CostColumn));
      if cost.None? then None
      else
        var accepted := IsProjectAccepted(Get(row, AcceptedColumn));
        var name := SingleLine(title.value);
        var description := Join("\n", DescriptionParts(name, Get(row, LocationColumn), Get(row, ScopeColumn)));
        EntryOfTitle(title.value, cost.value, Get(row, LocationColumn), Get(row, ScopeColumn), accepted);
        Some(Entry(name, cost.value, description, accepted))
  }

  /**
   * Running the 2024 mapper over a document: every extracted record is a
   * budget entry, and there is one per data row with a title and a
   * readable cost.
   */
  lemma Extracted2024(pages: seq<Page>)
    ensures forall e :: e in KeepEntries(ProcessRow2024, DocumentDicts(pages)) ==> IsBudgetEntry(e)
    ensures |KeepEntries(ProcessRow2024, DocumentDicts(pages))| == CountProduced(ProcessRow2024, DocumentDicts(pages))
    ensures Extraction(ProcessRow2024, DocumentDicts(pages)) == Success(KeepEntries(ProcessRow2024, DocumentDicts(pages)))
  {
    var dicts := DocumentDicts(pages);
    forall e | e in KeepEntries(ProcessRow2024, dicts)
      ensures IsBudgetEntry(e) && Loggable(e)
    {
      KeepEntriesMembers(ProcessRow2024, dicts, e);
    }
    forall i | 0 <= i < |dicts| && ProcessRow2024(dicts[i]).Some?
      ensures ProcessRow2024(dicts[i]).value != map[]
    {
      assert "name" in ProcessRow2024(dicts[i]).value;
    }
    KeepEntriesCount(ProcessRow2024, dicts);
    ExtractionSucceeds(ProcessRow2024, dicts);
  }
}
