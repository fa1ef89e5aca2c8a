/** The row mapper for the 2025 results table (preprocessing/extract_bo_2025.py). */
module ExtractBo2025 {
  import opened Wrappers
  import opened Text
  import opened Records
  import opened Tools

  const TextColumn := "Tytuł / lokalizacja / zakres"
  const CostColumn := "Koszt projektu"
  const AcceptedColumn := "Czy projekt został wybrany?"

  /** The line that opens the scope part of the combined cell. */
  const ScopeMarker := "\nZakres:"

  /** The combined cell's text before its scope part, or all of it when it has none. */
  function BeforeScope(description: string): (r: string)
    ensures |r| <= |description| && r == description[..|r|]
    ensures !Contains(description, ScopeMarker) ==> r == description
    ensures Contains(description, ScopeMarker) ==> OccursAt(description, ScopeMarker, |r|)
    ensures forall i: nat :: i < |r| ==> !OccursAt(description, ScopeMarker, i)
  {
    if Contains(description, ScopeMarker) then BeforeSubstring(description, ScopeMarker) else description
  }

  /**
   * Cutting at the scope marker never changes the first line: the marker
   * itself begins with a newline, so the cut falls at or after the end of
   * the first line.
   */
  lemma ScopeCutKeepsFirstLine(description: string)
    ensures ExtractFirstSentence(BeforeScope(description)) == ExtractFirstSentence(description)
  {
    var r := BeforeScope(description);
    if |r| < |description| {
      assert description[|r|..|r| + |ScopeMarker|] == ScopeMarker;
      assert description[|r|] == description[|r|..|r| + |ScopeMarker|][0] == ScopeMarker[0] == '\n';
      var rest := description[|r|..];
      assert description == r + rest;
      BeforeFirstConcat(r, rest, '\n');
      if '\n' !in r {
        BeforeFirstAbsent(r, '\n');
        assert BeforeFirst(rest, '\n') == [];
        assert r + [] == r;
      }
    }
  }

  /** The entry built from a combined cell: its name is the cell's first line, which lies inside the cell. */
  lemma EntryOfCell(description: string, cost: nat, accepted: bool)
    ensures var e := Entry(ExtractFirstSentence(BeforeScope(description)), cost, description, accepted);
            && IsBudgetEntry(e)
            && e["name"] == Str(ExtractFirstSentence(description))
            && e["description"] == Str(description)
            && e["cost"] == Int(cost) && e["accepted"] == Bool(accepted)
  {
    ScopeCutKeepsFirstLine(description);
    var name := ExtractFirstSentence(description);
    FirstSentenceInside(description);
    EntryIsBudgetEntry(name, cost, description, accepted);
  }

  /**
   * `process_row_2025`: `None` for a row without text or without a
   * readable cost; otherwise the entry whose description is the raw cell
   * and whose name is the cell's first line, stripped.
   */
  function ProcessRow2025(row: RowMap): (r: Option<Record>)
    ensures r.Some? <==> Filled(Get(row, TextColumn)) && ExtractCostFromString(Get(row, CostColumn)).Some?
    ensures r.Some? ==> IsBudgetEntry(r.value)
    ensures r.Some? ==> r.value["cost"] == Int(ExtractCostFromString(Get(row, CostColumn)).value)
    ensures r.Some? ==> r.value["accepted"] == Bool(IsProjectAccepted(Get(row, AcceptedColumn)))
    ensures r.Some? ==> r.value["description"] == Str(Get(row, TextColumn).value)
    ensures r.Some? ==> r.value["name"] == Str(ExtractFirstSentence(Get(row, TextColumn).value))
  {
    var text := Get(row, TextColumn);
    if !Filled(text) then None
    else
      var cost := ExtractCostFromString(Get(row, CostColumn));
      if cost.None? then None
      else
        var accepted := IsProjectAccepted(Get(row, AcceptedColumn));
        var description := text.value;
        var name := ExtractFirstSentence(BeforeScope(description));
        EntryOfCell(description, cost.value, accepted);
        Some(Entry(name, cost.value, description, accepted))
  }

  /**
   * Running the 2025 mapper over a document: every extracted record is a
   * budget entry, and there is one per data row with text and a readable
   * cost.
   */
  lemma Extracted2025(pages: seq<Page>)
    ensures forall e :: e in KeepEntries(ProcessRow2025, DocumentDicts(pages)) ==> IsBudgetEntry(e)
    ensures |KeepEntries(ProcessRow2025, DocumentDicts(pages))| == CountProduced(ProcessRow2025, DocumentDicts(pages))
    ensures Extraction(ProcessRow2025, DocumentDicts(pages)) == Success(KeepEntries(ProcessRow2025, DocumentDicts(pages)))
  {
    var dicts := DocumentDicts(pages);
    forall e | e in KeepEntries(ProcessRow2025, dicts)
      ensures IsBudgetEntry(e) && Loggable(e)
    {
      KeepEntriesMembers(ProcessRow2025, dicts, e);
    }
    forall i | 0 <= i < |dicts| && ProcessRow2025(dicts[i]).Some?
      ensures ProcessRow2025(dicts[i]).value != map[]
    {
      assert "name" in ProcessRow2025(dicts[i]).value;
    }
    KeepEntriesCount(ProcessRow2025, dicts);
    ExtractionSucceeds(ProcessRow2025, dicts);
  }
}
