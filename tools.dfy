/**
 * The helpers shared by the yearly extractors (preprocessing/tools.py):
 * cost parsing, the acceptance flag, the first-line extractor, and the
 * page/table/row loop that feeds every data row to a year-specific mapper.
 */
module Tools {
  import opened Wrappers
  import opened Text
  import opened Records

  // ---------------------------------------------------------------------
  // extract_cost_from_string
  // ---------------------------------------------------------------------

  /** `s.split(',')[0].split('.')[0]`: the integer part, before any decimal separator. */
  function IntegerPart(s: string): (r: string)
    ensures |r| <= |s| && r == s[..|r|]
    ensures ',' !in r && '.' !in r
    ensures |r| < |s| ==> s[|r|] == ',' || s[|r|] == '.'
  {
    BeforeFirst(BeforeFirst(s, ','), '.')
  }

  /**
   * The amount of a cost cell such as "10 000,00 zł": the digits of its
   * integer part read as a decimal number; `None` for an empty cell or an
   * integer part without digits.
   */
  function ExtractCostFromString(cost: Cell): (r: Option<nat>)
    ensures r.None? <==> !Filled(cost) || !HasDigit(IntegerPart(cost.value))
    ensures r.Some? ==> r.value == DigitsValue(KeepDigits(IntegerPart(cost.value)))
  {
    if !Filled(cost) then None
    else
      var digits := KeepDigits(IntegerPart(cost.value));
      KeepDigitsEmptyIff(IntegerPart(cost.value));
      if digits == [] then None else Some(DigitsValue(digits))
  }

  /** Appending a decimal separator and anything at all after it leaves the integer part unchanged. */
  lemma IntegerPartIgnoresFraction(s: string, sep: char, t: string)
    requires sep == ',' || sep == '.'
    ensures IntegerPart(s + [sep] + t) == IntegerPart(s)
  {
    var u := [sep] + t;
    assert s + [sep] + t == s + u;
    BeforeFirstConcat(s, u, ',');
    if ',' !in s {
      BeforeFirstAbsent(s, ',');
      if sep == ',' {
        assert BeforeFirst(u, ',') == [];
        assert s + [] == s;
      } else {
        var v := BeforeFirst(u, ',');
        assert v == [sep] + BeforeFirst(t, ',');
        BeforeFirstConcat(s, v, '.');
        if '.' !in s {
          assert BeforeFirst(v, '.') == [];
          assert s + [] == s;
        }
      }
    }
  }

  /** Digits after the first ',' or '.' never affect the cost. */
  lemma CostIgnoresFraction(s: string, sep: char, t: string)
    requires sep == ',' || sep == '.'
    ensures ExtractCostFromString(Some(s + [sep] + t)) == ExtractCostFromString(Some(s))
  {
    IntegerPartIgnoresFraction(s, sep, t);
    if s == [] {
      assert IntegerPart(s) == [];
    }
  }

  /** A plain decimal number is read back as itself: `extract_cost_from_string(str(n)) == n`. */
  lemma CostOfDecimalText(n: nat)
    ensures ExtractCostFromString(Some(DecimalText(n))) == Some(n)
  {
    var t := DecimalText(n);
    assert ',' !in t && '.' !in t by {
      assert forall i :: 0 <= i < |t| ==> IsDigit(t[i]);
    }
    BeforeFirstAbsent(t, ',');
    BeforeFirstAbsent(t, '.');
    KeepDigitsOfDigits(t);
    assert IsDigit(t[0]);
    DecimalTextRoundTrip(n);
  }

  lemma CommaCutExample()
    ensures BeforeFirst("10 000,00 zł", ',') == "10 000"
  {
    assert "10 000,00 zł" == "10 000" + ",00 zł";
    BeforeFirstConcat("10 000", ",00 zł", ',');
    assert BeforeFirst(",00 zł", ',') == [];
    assert "10 000" + [] == "10 000";
  }

  lemma IntegerPartOfDecimalExample()
    ensures IntegerPart("10 000,00 zł") == "10 000"
  {
    CommaCutExample();
    BeforeFirstAbsent("10 000", '.');
  }

  lemma NoCommaInWholeExample()
    ensures BeforeFirst("100 000 zł", ',') == "100 000 zł"
  {
    BeforeFirstAbsent("100 000 zł", ',');
  }

  lemma NoDotInWholeExample()
    ensures BeforeFirst("100 000 zł", '.') == "100 000 zł"
  {
    BeforeFirstAbsent("100 000 zł", '.');
  }

  lemma IntegerPartOfWholeExample()
    ensures IntegerPart("100 000 zł") == "100 000 zł"
  {
    NoCommaInWholeExample();
    NoDotInWholeExample();
  }

  lemma KeepDigitsOfGroupedExample()
    ensures KeepDigits("10 000") == "10000"
  {
    assert "10 000" == "10" + " 000";
    KeepDigitsConcat("10", " 000");
  }

  lemma KeepDigitsOfWholeExample()
    ensures KeepDigits("100 000 zł") == "100000"
  {
    assert "100 000 zł" == "100" + " 000 zł";
    KeepDigitsConcat("100", " 000 zł");
    KeepDigitsOfHundred();
    KeepDigitsOfCurrencyTail();
  }

  lemma KeepDigitsOfHundred()
    ensures KeepDigits("100") == "100"
  {
    KeepDigitsOfDigits("100");
  }

  lemma KeepDigitsOfCurrencyTail()
    ensures KeepDigits(" 000 zł") == "000"
  {
    assert " 000 zł" == " 000" + " zł";
    KeepDigitsConcat(" 000", " zł");
  }

  lemma DigitsOfTenThousand()
    ensures DigitsValue("10000") == 10000
  {
    assert "10000"[..4] == "1000" && "1000"[..3] == "100";
    assert "100"[..2] == "10" && "10"[..1] == "1";
  }

  lemma DigitsOfHundredThousand()
    ensures DigitsValue("100000") == 100000
  {
    assert "100000"[..5] == "10000";
    DigitsOfTenThousand();
  }

  /** The documentation's first example: the grosze after the comma are dropped. */
  lemma CostExampleWithDecimals()
    ensures ExtractCostFromString(Some("10 000,00 zł")) == Some(10000)
  {
    IntegerPartOfDecimalExample();
    KeepDigitsOfGroupedExample();
    DigitsOfTenThousand();
  }

  /** The documentation's second example: spaces between digit groups are ignored. */
  lemma CostExampleWhole()
    ensures ExtractCostFromString(Some("100 000 zł")) == Some(100000)
  {
    IntegerPartOfWholeExample();
    KeepDigitsOfWholeExample();
    DigitsOfHundredThousand();
  }

  /**
   * A period is always read as a decimal separator, never as a thousands
   * separator: "1.000" costs 1, not 1000.
   */
  lemma PeriodIsNeverGrouping()
    ensures ExtractCostFromString(Some("1.000")) == Some(1)
  {
    PeriodSplitExample();
    CostIgnoresFraction("1", '.', "000");
    CostOfOne();
  }

  lemma PeriodSplitExample()
    ensures "1.000" == "1" + ['.'] + "000"
  {
  }

  lemma CostOfOne()
    ensures ExtractCostFromString(Some("1")) == Some(1)
  {
    assert DecimalText(1) == "1";
    CostOfDecimalText(1);
  }

  // ---------------------------------------------------------------------
  // is_project_accepted
  // ---------------------------------------------------------------------

  /** The acceptance column: its trimmed text is exactly "TAK" (case-sensitive). */
  function IsProjectAccepted(value: Cell): (r: bool)
    ensures r <==> value.Some? && Strip(value.value) == "TAK"
  {
    if !Filled(value) then false
    else Strip(value.value) == "TAK"
  }

  /** Accepted exactly when the cell is "TAK" padded with whitespace on either side. */
  lemma AcceptedIffPaddedTak(s: string)
    ensures IsProjectAccepted(Some(s)) <==>
            exists a, b :: AllSpace(a) && AllSpace(b) && s == a + "TAK" + b
  {
    if IsProjectAccepted(Some(s)) {
      PaddedWhenAccepted(s);
    }
    if exists a, b :: AllSpace(a) && AllSpace(b) && s == a + "TAK" + b {
      var a, b :| AllSpace(a) && AllSpace(b) && s == a + "TAK" + b;
      AcceptedWhenPadded(a, b);
    }
  }

  /** An accepted cell is "TAK" with whitespace around it. */
  lemma PaddedWhenAccepted(s: string)
    requires IsProjectAccepted(Some(s))
    ensures exists a, b :: AllSpace(a) && AllSpace(b) && s == a + "TAK" + b
  {
    var i := StripFrame(s);
    var a, b := s[..i], s[i + 3..];
    assert s == a + "TAK" + b;
  }

  /** "TAK" with whitespace around it is accepted. */
  lemma AcceptedWhenPadded(a: string, b: string)
    requires AllSpace(a) && AllSpace(b)
    ensures IsProjectAccepted(Some(a + "TAK" + b))
  {
    assert Trimmed("TAK");
    StripOfFramed(a, "TAK", b);
  }

  /** The acceptance examples: only the exact upper-case token counts. */
  lemma AcceptedExamples()
    ensures IsProjectAccepted(Some(" TAK "))
    ensures !IsProjectAccepted(Some("NIE"))
    ensures !IsProjectAccepted(Some("tak"))
    ensures !IsProjectAccepted(Some(""))
    ensures !IsProjectAccepted(None)
  {
    var a, t, b := " ", "TAK", " ";
    assert AllSpace(a) && Trimmed(t);
    StripOfFramed(a, t, b);
    assert a + t + b == " TAK ";
    StripOfTrimmed("NIE");
    StripOfTrimmed("tak");
  }

  // ---------------------------------------------------------------------
  // extract_first_sentence
  // ---------------------------------------------------------------------

  /** The first line of `text`, stripped (with or without final punctuation). */
  function ExtractFirstSentence(text: string): (r: string)
    ensures '\n' !in r
    ensures Trimmed(r)
  {
    var firstLine := Strip(BeforeFirst(text, '\n'));
    assert '\n' !in firstLine by {
      var line := BeforeFirst(text, '\n');
      var i := StripFrame(line);
      assert forall j :: 0 <= j < |firstLine| ==> firstLine[j] == line[i + j];
    }
    firstLine
  }

  /** The first line is the stripped text before the first newline. */
  lemma FirstSentenceOfLines(a: string, b: string)
    requires '\n' !in a
    ensures ExtractFirstSentence(a + "\n" + b) == Strip(a)
  {
    BeforeFirstConcat(a, "\n" + b, '\n');
    assert a + "\n" + b == a + ("\n" + b);
    BeforeFirstAbsent(a, '\n');
    assert a + [] == a;
  }

  /** Text without a newline is just stripped. */
  lemma FirstSentenceOfOneLine(a: string)
    requires '\n' !in a
    ensures ExtractFirstSentence(a) == Strip(a)
  {
    BeforeFirstAbsent(a, '\n');
  }

  /** The first sentence is a piece of the text it was taken from. */
  lemma FirstSentenceInside(text: string)
    ensures Contains(text, ExtractFirstSentence(text))
  {
    var line := BeforeFirst(text, '\n');
    var r := Strip(line);
    assert r == ExtractFirstSentence(text);
    var i := StripFrame(line);
    SliceOfPrefix(text, line, i, i + |r|);
    assert OccursAt(text, r, i);
  }

  /** Taking the first sentence twice changes nothing. */
  lemma FirstSentenceIdempotent(text: string)
    ensures ExtractFirstSentence(ExtractFirstSentence(text)) == ExtractFirstSentence(text)
  {
    var r := ExtractFirstSentence(text);
    FirstSentenceOfOneLine(r);
    StripOfTrimmed(r);
  }

  // ---------------------------------------------------------------------
  // extract_budget_data
  // ---------------------------------------------------------------------

  /** One table row as the PDF library returns it. */
  type Row = seq<Cell>

  /** A table: its first row holds the column headers. */
  type Table = seq<Row>

  /** The tables found on one page. */
  type Page = seq<Table>

  /**
   * `{k: v for k, v in zip(headers, row) if k is not None}`: the cells
   * keyed by their headers, up to the shorter of the two rows.
   */
  function RowDict(headers: Row, row: Row): RowMap
    decreases |row|
  {
    if headers == [] || row == [] then map[]
    else
      var n := if |headers| < |row| then |headers| else |row|;
      var m := RowDict(headers[..n - 1], row[..n - 1]);
      if headers[n - 1].Some? then m[headers[n - 1].value := row[n - 1]] else m
  }

  /** The columns of a row dictionary are the non-`None` headers that have a cell beside them. */
  lemma {:induction false} RowDictKeys(headers: Row, row: Row, k: string)
    ensures k in RowDict(headers, row) <==> exists i :: 0 <= i < |headers| && i < |row| && headers[i] == Some(k)
    decreases |row|
  {
    if headers != [] && row != [] {
      var n := if |headers| < |row| then |headers| else |row|;
      RowDictKeys(headers[..n - 1], row[..n - 1], k);
      assert forall i :: 0 <= i < n - 1 ==> headers[..n - 1][i] == headers[i];
    }
  }

  /** A column named more than once takes the cell of its last occurrence. */
  lemma {:induction false} RowDictLastWins(headers: Row, row: Row, i: nat, k: string)
    requires i < |headers| && i < |row| && headers[i] == Some(k)
    requires forall j :: i < j < |headers| && j < |row| ==> headers[j] != Some(k)
    ensures k in RowDict(headers, row) && RowDict(headers, row)[k] == row[i]
    decreases |row|
  {
    var n := if |headers| < |row| then |headers| else |row|;
    if i < n - 1 {
      assert headers[n - 1] != Some(k);
      RowDictLastWins(headers[..n - 1], row[..n - 1], i, k);
    }
  }

  /** The row dictionaries of a table's data rows, skipping rows of fewer than two cells. */
  function DataRowDicts(headers: Row, rows: seq<Row>): seq<RowMap>
  {
    if rows == [] then []
    else
      var row := rows[|rows| - 1];
      DataRowDicts(headers, rows[..|rows| - 1]) + (if |row| < 2 then [] else [RowDict(headers, row)])
  }

  /** The row dictionaries of one table: the first row is the header row. */
  function TableDicts(table: Table): seq<RowMap>
  {
    if table == [] then [] else DataRowDicts(table[0], table[1..])
  }

  /** The row dictionaries of the tables of one page, in table order. */
  function PageDicts(tables: Page): seq<RowMap>
  {
    if tables == [] then [] else PageDicts(tables[..|tables| - 1]) + TableDicts(tables[|tables| - 1])
  }

  /** The row dictionaries of a whole document, in page, table and row order. */
  function DocumentDicts(pages: seq<Page>): seq<RowMap>
  {
    if pages == [] then [] else DocumentDicts(pages[..|pages| - 1]) + PageDicts(pages[|pages| - 1])
  }

  /** `if entry: entries.append(entry)`: `None` and the empty dict are both dropped. */
  function Kept(entry: Option<Record>): seq<Record>
  {
    if entry.Some? && entry.value != map[] then [entry.value] else []
  }

  /** The entries a row mapper keeps from a sequence of row dictionaries, in order. */
  function KeepEntries(processRow: RowMap -> Option<Record>, dicts: seq<RowMap>): seq<Record>
  {
    if dicts == [] then []
    else KeepEntries(processRow, dicts[..|dicts| - 1]) + Kept(processRow(dicts[|dicts| - 1]))
  }

  /** Keeping entries distributes over concatenation of row sequences. */
  lemma {:induction false} KeepEntriesAppend(processRow: RowMap -> Option<Record>, a: seq<RowMap>, b: seq<RowMap>)
    ensures KeepEntries(processRow, a + b) == KeepEntries(processRow, a) + KeepEntries(processRow, b)
  {
    if b == [] {
      assert a + b == a;
    } else {
      var b' := b[..|b| - 1];
      assert (a + b)[..|a + b| - 1] == a + b';
      KeepEntriesAppend(processRow, a, b');
    }
  }

  /** An entry is kept exactly when the mapper returned it, non-empty, for one of the rows. */
  lemma {:induction false} KeepEntriesMembers(processRow: RowMap -> Option<Record>, dicts: seq<RowMap>, e: Record)
    ensures e in KeepEntries(processRow, dicts) <==>
            e != map[] && exists i :: 0 <= i < |dicts| && processRow(dicts[i]) == Some(e)
  {
    if dicts != [] {
      var init, last := dicts[..|dicts| - 1], dicts[|dicts| - 1];
      KeepEntriesMembers(processRow, init, e);
      assert KeepEntries(processRow, dicts) == KeepEntries(processRow, init) + Kept(processRow(last));
      if e in KeepEntries(processRow, dicts) {
        if e in KeepEntries(processRow, init) {
          var i :| 0 <= i < |init| && processRow(init[i]) == Some(e);
          assert dicts[i] == init[i];
        } else {
          assert processRow(dicts[|dicts| - 1]) == Some(e);
        }
      }
      if e != map[] && exists i :: 0 <= i < |dicts| && processRow(dicts[i]) == Some(e) {
        var i :| 0 <= i < |dicts| && processRow(dicts[i]) == Some(e);
        if i < |init| {
          assert init[i] == dicts[i];
        }
      }
    }
  }

  /** The number of rows for which the mapper returns a record. */
  function CountProduced(processRow: RowMap -> Option<Record>, dicts: seq<RowMap>): nat
  {
    if dicts == [] then 0
    else CountProduced(processRow, dicts[..|dicts| - 1]) + (if processRow(dicts[|dicts| - 1]).Some? then 1 else 0)
  }

  /**
   * A mapper that never returns an empty record loses nothing: one entry
   * per row it accepts.
   */
  lemma {:induction false} KeepEntriesCount(processRow: RowMap -> Option<Record>, dicts: seq<RowMap>)
    requires forall i :: 0 <= i < |dicts| && processRow(dicts[i]).Some? ==> processRow(dicts[i]).value != map[]
    ensures |KeepEntries(processRow, dicts)| == CountProduced(processRow, dicts)
  {
    if dicts != [] {
      var init := dicts[..|dicts| - 1];
      assert forall i :: 0 <= i < |init| ==> init[i] == dicts[i];
      KeepEntriesCount(processRow, init);
    }
  }

  /** The entries never outnumber the data rows. */
  lemma {:induction false} KeepEntriesBound(processRow: RowMap -> Option<Record>, dicts: seq<RowMap>)
    ensures |KeepEntries(processRow, dicts)| <= |dicts|
  {
    if dicts != [] {
      KeepEntriesBound(processRow, dicts[..|dicts| - 1]);
    }
  }

  /** A table contributes one dictionary per data row of at least two cells, built against its header row. */
  lemma {:induction false} DataRowDictsMembers(headers: Row, rows: seq<Row>, d: RowMap)
    ensures d in DataRowDicts(headers, rows) <==>
            exists i :: 0 <= i < |rows| && |rows[i]| >= 2 && d == RowDict(headers, rows[i])
  {
    if rows != [] {
      var init := rows[..|rows| - 1];
      DataRowDictsMembers(headers, init, d);
      assert forall i :: 0 <= i < |init| ==> init[i] == rows[i];
    }
  }

  /** The last page's dictionaries come after those of the pages before it. */
  lemma DocumentDictsLast(pages: seq<Page>)
    requires pages != []
    ensures DocumentDicts(pages) == DocumentDicts(pages[..|pages| - 1]) + PageDicts(pages[|pages| - 1])
  {
  }

  /** Pages are processed in order: the dictionaries of two runs of pages are those of each, concatenated. */
  lemma {:induction false} DocumentDictsAppend(first: seq<Page>, second: seq<Page>)
    ensures DocumentDicts(first + second) == DocumentDicts(first) + DocumentDicts(second)
    decreases |second|
  {
    if second == [] {
      assert first + second == first;
    } else {
      var init := second[..|second| - 1];
      var whole := first + second;
      assert whole[..|whole| - 1] == first + init;
      DocumentDictsLast(whole);
      DocumentDictsLast(second);
      DocumentDictsAppend(first, init);
      ConcatAssociative(DocumentDicts(first), DocumentDicts(init), PageDicts(second[|second| - 1]));
    }
  }

  /** The extracted entries of consecutive pages come out in page order. */
  lemma ExtractionFollowsPageOrder(processRow: RowMap -> Option<Record>, first: seq<Page>, second: seq<Page>)
    ensures KeepEntries(processRow, DocumentDicts(first + second)) ==
            KeepEntries(processRow, DocumentDicts(first)) + KeepEntries(processRow, DocumentDicts(second))
    ensures Extraction(processRow, DocumentDicts(first + second)) ==
            Then(Extraction(processRow, DocumentDicts(first)), Extraction(processRow, DocumentDicts(second)))
  {
    DocumentDictsAppend(first, second);
    KeepEntriesAppend(processRow, DocumentDicts(first), DocumentDicts(second));
    ExtractionAppend(processRow, DocumentDicts(first), DocumentDicts(second));
  }

  // ---------------------------------------------------------------------
  // The log line of each kept entry
  // ---------------------------------------------------------------------

  /**
   * What stops the extraction at the log line `entry['name'][:50]`: a kept
   * record without `name` raises `KeyError`; one whose name is not text
   * (a number, a boolean, a coordinate or `None`) cannot be sliced and
   * raises `TypeError`.
   */
  datatype LogError = KeyError(entry: Record) | TypeError(entry: Record)

  /** The log line can be built: the record has a textual `name`. */
  predicate Loggable(e: Record)
  {
    "name" in e && e["name"].Str?
  }

  /** The outcome so far, extended by what one more row keeps (the kept record is logged right after it is appended). */
  function Continue(acc: Result<seq<Record>, LogError>, kept: seq<Record>): Result<seq<Record>, LogError>
  {
    match acc
    case Failure(_) => acc
    case Success(es) =>
      if kept == [] then acc
      else if "name" !in kept[0] then Failure(KeyError(kept[0]))
      else if !kept[0]["name"].Str? then Failure(TypeError(kept[0]))
      else Success(es + kept)
  }

  /**
   * The outcome of the row loop over a sequence of row dictionaries: the
   * kept entries, or the error raised by the log line of the first kept
   * entry it rejects.
   */
  function Extraction(processRow: RowMap -> Option<Record>, dicts: seq<RowMap>): Result<seq<Record>, LogError>
  {
    if dicts == [] then Success([])
    else Continue(Extraction(processRow, dicts[..|dicts| - 1]), Kept(processRow(dicts[|dicts| - 1])))
  }

  /** Two runs in turn: the first run's error, else the second's, else both lists one after the other. */
  function Then(x: Result<seq<Record>, LogError>, y: Result<seq<Record>, LogError>): Result<seq<Record>, LogError>
  {
    match x
    case Failure(_) => x
    case Success(u) =>
      match y
      case Failure(e) => Failure(e)
      case Success(v) => Success(u + v)
  }

  lemma ExtractionStep(processRow: RowMap -> Option<Record>, done: seq<RowMap>, d: RowMap)
    ensures Extraction(processRow, done + [d]) == Continue(Extraction(processRow, done), Kept(processRow(d)))
  {
    assert (done + [d])[..|done|] == done;
  }

  lemma ContinueThen(x: Result<seq<Record>, LogError>, y: Result<seq<Record>, LogError>, kept: seq<Record>)
    ensures Continue(Then(x, y), kept) == Then(x, Continue(y, kept))
  {
    if x.Success? && y.Success? && kept != [] {
      ConcatAssociative(x.value, y.value, kept);
    }
  }

  /** The rows of two runs are handled in turn: an error in the first run ends everything. */
  lemma {:induction false} ExtractionAppend(processRow: RowMap -> Option<Record>, a: seq<RowMap>, b: seq<RowMap>)
    ensures Extraction(processRow, a + b) == Then(Extraction(processRow, a), Extraction(processRow, b))
    decreases |b|
  {
    if b == [] {
      assert a + b == a;
      if Extraction(processRow, a).Success? {
        assert Extraction(processRow, a).value + [] == Extraction(processRow, a).value;
      }
    } else {
      var init := b[..|b| - 1];
      assert (a + b)[..|a + b| - 1] == a + init;
      ExtractionAppend(processRow, a, init);
      ContinueThen(Extraction(processRow, a), Extraction(processRow, init), Kept(processRow(b[|b| - 1])));
    }
  }

  /** The loop runs to the end exactly when every kept entry has a textual name, and it then returns exactly the kept entries. */
  lemma {:induction false} ExtractionSucceeds(processRow: RowMap -> Option<Record>, dicts: seq<RowMap>)
    ensures Extraction(processRow, dicts).Success? <==> forall e :: e in KeepEntries(processRow, dicts) ==> Loggable(e)
    ensures Extraction(processRow, dicts).Success? ==> Extraction(processRow, dicts).value == KeepEntries(processRow, dicts)
  {
    if dicts != [] {
      var init, kept := dicts[..|dicts| - 1], Kept(processRow(dicts[|dicts| - 1]));
      ExtractionSucceeds(processRow, init);
      var before := KeepEntries(processRow, init);
      assert forall e :: e in before + kept <==> e in before || e in kept;
      if Extraction(processRow, init).Success? && kept != [] {
        assert kept == [kept[0]];
        if Loggable(kept[0]) {
          assert Extraction(processRow, dicts) == Success(before + kept);
        } else {
          assert Extraction(processRow, dicts).Failure?;
        }
      }
    }
  }

  /**
   * An error names the first kept entry, at position `i` of the kept
   * entries, whose log line fails: every entry kept before it has a
   * textual name, and the error is `KeyError` exactly when it has no name.
   */
  lemma {:induction false} ExtractionFailsAtFirst(processRow: RowMap -> Option<Record>, dicts: seq<RowMap>) returns (i: nat)
    requires Extraction(processRow, dicts).Failure?
    ensures i < |KeepEntries(processRow, dicts)|
    ensures KeepEntries(processRow, dicts)[i] == Extraction(processRow, dicts).error.entry
    ensures !Loggable(KeepEntries(processRow, dicts)[i])
    ensures forall j :: 0 <= j < i ==> Loggable(KeepEntries(processRow, dicts)[j])
    ensures Extraction(processRow, dicts).error.KeyError? <==> "name" !in Extraction(processRow, dicts).error.entry
  {
    var init := dicts[..|dicts| - 1];
    if Extraction(processRow, init).Failure? {
      i := ExtractionFailsAtFirst(processRow, init);
    } else {
      ExtractionSucceeds(processRow, init);
      var before := KeepEntries(processRow, init);
      i := |before|;
      assert forall j :: 0 <= j < i ==> before[j] in before;
    }
  }

  lemma DataRowDictsStep(headers: Row, table: Table, r: nat)
    requires 1 <= r < |table|
    ensures DataRowDicts(headers, table[1..r + 1]) ==
            DataRowDicts(headers, table[1..r]) + (if |table[r]| < 2 then [] else [RowDict(headers, table[r])])
  {
    assert table[1..r + 1][..r - 1] == table[1..r];
  }

  lemma KeepEntriesStep(processRow: RowMap -> Option<Record>, done: seq<RowMap>, d: RowMap)
    ensures KeepEntries(processRow, done + [d]) == KeepEntries(processRow, done) + Kept(processRow(d))
  {
    assert (done + [d])[..|done|] == done;
  }

  /** The rows of a table are handled in order: the dictionaries of two runs of rows, concatenated. */
  lemma {:induction false} DataRowDictsAppend(headers: Row, a: seq<Row>, b: seq<Row>)
    ensures DataRowDicts(headers, a + b) == DataRowDicts(headers, a) + DataRowDicts(headers, b)
    decreases |b|
  {
    if b == [] {
      assert a + b == a;
    } else {
      var init, last := b[..|b| - 1], b[|b| - 1];
      assert (a + b)[..|a + b| - 1] == a + init;
      DataRowDictsAppend(headers, a, init);
      ConcatAssociative(DataRowDicts(headers, a), DataRowDicts(headers, init),
                        if |last| < 2 then [] else [RowDict(headers, last)]);
    }
  }

  /** An error in the rows handled so far is the error of the whole table. */
  lemma TableFailureStays(table: Table, processRow: RowMap -> Option<Record>, r: nat)
    requires 1 <= r <= |table|
    requires Extraction(processRow, DataRowDicts(table[0], table[1..r])).Failure?
    ensures Extraction(processRow, TableDicts(table)) == Extraction(processRow, DataRowDicts(table[0], table[1..r]))
  {
    assert table[1..] == table[1..r] + table[r..];
    DataRowDictsAppend(table[0], table[1..r], table[r..]);
    ExtractionAppend(processRow, DataRowDicts(table[0], table[1..r]), DataRowDicts(table[0], table[r..]));
  }

  /** The row loop over one table: its kept entries, or the error of the first whose log line fails. */
  method TableEntries(table: Table, processRow: RowMap -> Option<Record>) returns (result: Result<seq<Record>, LogError>)
    ensures result == Extraction(processRow, TableDicts(table))
  {
    if table == [] {
      return Success([]);
    }
    var headers := table[0];
    var found := [];
    var r := 1;
    while r < |table|
      invariant 1 <= r <= |table|
      invariant Extraction(processRow, DataRowDicts(headers, table[1..r])) == Success(found)
    {
      var row := table[r];
      ghost var done := DataRowDicts(headers, table[1..r]);
      DataRowDictsStep(headers, table, r);
      if |row| >= 2 {
        var rowDict := RowDict(headers, row);
        var entry := processRow(rowDict);
        ExtractionStep(processRow, done, rowDict);
        if entry.Some? && entry.value != map[] {
          var e := entry.value;
          if "name" !in e {
            result := Failure(KeyError(e));
            TableFailureStays(table, processRow, r + 1);
            return;
          }
          if !e["name"].Str? {
            result := Failure(TypeError(e));
            TableFailureStays(table, processRow, r + 1);
            return;
          }
          found := found + [e];
        }
      } else {
        assert done + [] == done;
      }
      r := r + 1;
    }
    assert table[1..r] == table[1..];
    result := Success(found);
  }

  lemma PageDictsStep(tables: Page, t: nat)
    requires t < |tables|
    ensures PageDicts(tables[..t + 1]) == PageDicts(tables[..t]) + TableDicts(tables[t])
  {
    assert tables[..t + 1][..t] == tables[..t];
  }

  /** The tables of a page are handled in order: the dictionaries of two runs of tables, concatenated. */
  lemma {:induction false} PageDictsAppend(a: Page, b: Page)
    ensures PageDicts(a + b) == PageDicts(a) + PageDicts(b)
    decreases |b|
  {
    if b == [] {
      assert a + b == a;
    } else {
      var init := b[..|b| - 1];
      assert (a + b)[..|a + b| - 1] == a + init;
      PageDictsAppend(a, init);
      ConcatAssociative(PageDicts(a), PageDicts(init), TableDicts(b[|b| - 1]));
    }
  }

  /** An error in the tables handled so far is the error of the whole page. */
  lemma PageFailureStays(tables: Page, processRow: RowMap -> Option<Record>, t: nat)
    requires t <= |tables|
    requires Extraction(processRow, PageDicts(tables[..t])).Failure?
    ensures Extraction(processRow, PageDicts(tables)) == Extraction(processRow, PageDicts(tables[..t]))
  {
    assert tables == tables[..t] + tables[t..];
    PageDictsAppend(tables[..t], tables[t..]);
    ExtractionAppend(processRow, PageDicts(tables[..t]), PageDicts(tables[t..]));
  }

  /** The table loop over one page: the kept entries of each table in turn, or the first error. */
  method PageEntries(tables: Page, processRow: RowMap -> Option<Record>) returns (result: Result<seq<Record>, LogError>)
    ensures result == Extraction(processRow, PageDicts(tables))
  {
    var found := [];
    var t := 0;
    while t < |tables|
      invariant t <= |tables|
      invariant Extraction(processRow, PageDicts(tables[..t])) == Success(found)
    {
      ghost var done, next := PageDicts(tables[..t]), TableDicts(tables[t]);
      var tableResult := TableEntries(tables[t], processRow);
      PageDictsStep(tables, t);
      ExtractionAppend(processRow, done, next);
      if tableResult.Failure? {
        result := tableResult;
        PageFailureStays(tables, processRow, t + 1);
        return;
      }
      found := found + tableResult.value;
      t := t + 1;
    }
    assert tables[..t] == tables;
    result := Success(found);
  }

  lemma DocumentDictsStep(pages: seq<Page>, p: nat)
    requires p < |pages|
    ensures DocumentDicts(pages[..p + 1]) == DocumentDicts(pages[..p]) + PageDicts(pages[p])
  {
    assert pages[..p + 1][..p] == pages[..p];
  }

  /** An error in the pages handled so far is the error of the whole document. */
  lemma DocumentFailureStays(pages: seq<Page>, processRow: RowMap -> Option<Record>, p: nat)
    requires p <= |pages|
    requires Extraction(processRow, DocumentDicts(pages[..p])).Failure?
    ensures Extraction(processRow, DocumentDicts(pages)) == Extraction(processRow, DocumentDicts(pages[..p]))
  {
    assert pages == pages[..p] + pages[p..];
    DocumentDictsAppend(pages[..p], pages[p..]);
    ExtractionAppend(processRow, DocumentDicts(pages[..p]), DocumentDicts(pages[p..]));
  }

  /**
   * The page walk of `extract_budget_data`, with the PDF's pages and
   * their tables given as input: every data row of at least two cells
   * becomes a row dictionary handed to `processRow`, and its truthy
   * results are collected in page, table and row order, each logged by
   * its name as it is kept. The first kept result whose name cannot be
   * logged ends the extraction with that error.
   */
  method ExtractBudgetData(pages: seq<Page>, processRow: RowMap -> Option<Record>) returns (result: Result<seq<Record>, LogError>)
    ensures result == Extraction(processRow, DocumentDicts(pages))
  {
    var entries := [];
    var p := 0;
    while p < |pages|
      invariant p <= |pages|
      invariant Extraction(processRow, DocumentDicts(pages[..p])) == Success(entries)
    {
      ghost var done, next := DocumentDicts(pages[..p]), PageDicts(pages[p]);
      var pageResult := PageEntries(pages[p], processRow);
      DocumentDictsStep(pages, p);
      ExtractionAppend(processRow, done, next);
      if pageResult.Failure? {
        result := pageResult;
        DocumentFailureStays(pages, processRow, p + 1);
        return;
      }
      entries := entries + pageResult.value;
      p := p + 1;
    }
    assert pages[..p] == pages;
    result := Success(entries);
  }
}
