/**
 * The values the preprocessing scripts pass around: PDF table cells
 * (`str` or `None`), the header-to-cell dictionaries built from table
 * rows, and the JSON records (`dict[str, Any]`) written and read back.
 */
module Records {
  import opened Wrappers
  import opened Text

  /** A latitude or longitude as returned by the geocoder; its floating-point value is not modelled. */
  type Coord(==)

  /** A JSON value held by a record. */
  datatype Value = Str(s: string) | Int(n: int) | Bool(b: bool) | Num(c: Coord) | Null

  /** A JSON object: one budget entry. */
  type Record = map<string, Value>

  /** A PDF table cell: text, or `None` for an empty cell. */
  type Cell = Option<string>

  /** One table row keyed by its column headers. */
  type RowMap = map<string, Cell>

  /** `row_dict.get(key)`: a missing column reads as `None`. */
  function Get(row: RowMap, key: string): Cell
  {
    if key in row then row[key] else None
  }

  /** Python truthiness of a cell: a non-empty string. */
  predicate Filled(c: Cell)
  {
    c.Some? && c.value != ""
  }

  /** `"lat" in entry and "lon" in entry`. */
  predicate HasCoords(e: Record)
  {
    "lat" in e && "lon" in e
  }

  /** The number of entries that hold both coordinates. */
  function CountWithCoords(es: seq<Record>): (n: nat)
    ensures n <= |es|
  {
    if es == [] then 0
    else CountWithCoords(es[..|es| - 1]) + (if HasCoords(es[|es| - 1]) then 1 else 0)
  }

  /** The six-key entry every year's row mapper returns; `address` and `category` stay empty. */
  function Entry(name: string, cost: nat, description: string, accepted: bool): Record
  {
    map["name" := Str(name), "address" := Str(""), "category" := Str(""),
        "cost" := Int(cost), "description" := Str(description), "accepted" := Bool(accepted)]
  }

  /**
   * What every yearly row mapper promises of the record it returns:
   * the six keys, a one-line trimmed name found inside the description,
   * a non-negative integer cost, a boolean acceptance flag, and empty
   * address and category.
   */
  predicate IsBudgetEntry(e: Record)
  {
    && e.Keys == {"name", "address", "category", "cost", "description", "accepted"}
    && e["name"].Str? && '\n' !in e["name"].s && Trimmed(e["name"].s)
    && e["cost"].Int? && e["cost"].n >= 0
    && e["accepted"].Bool?
    && e["address"] == Str("") && e["category"] == Str("")
    && e["description"].Str? && Contains(e["description"].s, e["name"].s)
  }

  /** An entry built from a one-line trimmed name found in its description is a budget entry holding the given values. */
  lemma EntryIsBudgetEntry(name: string, cost: nat, description: string, accepted: bool)
    requires '\n' !in name && Trimmed(name) && Contains(description, name)
    ensures IsBudgetEntry(Entry(name, cost, description, accepted))
    ensures var e := Entry(name, cost, description, accepted);
            && e["name"] == Str(name) && e["cost"] == Int(cost)
            && e["description"] == Str(description) && e["accepted"] == Bool(accepted)
  {
  }
}
