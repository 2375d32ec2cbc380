/**
 * The two per-institution row normalisers of gsheets.js. Each walks one parsed
 * CSV row, an ordered sequence of (column name, cell text) pairs, and builds a
 * new object by assignment. The configuration tables that the source reads
 * from a global are passed in explicitly as a Table.
 *
 * Each normaliser is given twice: as a step function plus a left fold over the
 * row (Row), which is the specification, and as a method with a loop that
 * mirrors the source statement by statement and is proved equal to the fold.
 */
module Normalizers {
  import opened Js

  /** One (column name, cell text) pair of a parsed CSV row. */
  type Pair = (string, string)

  /** The per-institution configuration: column renaming and value categorisation. */
  datatype Table = Table(headerNormalization: map<string, string>, categorize: map<string, string>)

  /** The institutions that have a normaliser. */
  datatype Institution = Schwab | CapitalOne

  /** The Capital One columns whose empty cells are not written under their canonical name. */
  predicate IsCapitalOneMoney(key: string)
  {
    key == "Debit" || key == "Credit"
  }

  /** The Schwab columns whose empty cells are not written under their canonical name. */
  predicate IsSchwabMoney(key: string)
  {
    key == "Withdrawal (-)" || key == "Deposit (+)"
  }

  /** One iteration of the loop in mapCapitalOneHeadersToSheetHeaders, applied to the object built so far. */
  function CapitalOneStep(t: Table, normalizedData: Record, p: Pair): Record
  {
    var (key, value) := p;
    var keyNormalized := Lookup(t.headerNormalization, key);
    var afterFallback := if !Truthy(keyNormalized) then normalizedData[key := Some(value)] else normalizedData;
    var valueCategorized := if key == "Category" then Lookup(t.categorize, value) else None;
    if value == "" && IsCapitalOneMoney(key) then afterFallback
    else afterFallback[PropertyKey(keyNormalized) := Or(valueCategorized, Some(value))]
  }

  /**
   * The value a Schwab pair carries after the overrides of the loop body:
   * `Type` takes the `Timestamp` written so far, `RunningBalance` the `Item`
   * written so far, every other column its own cell text.
   */
  function SchwabIncoming(normalizedData: Record, p: Pair): Value
  {
    if p.0 == "Type" then Get(normalizedData, "Timestamp")
    else if p.0 == "RunningBalance" then Get(normalizedData, "Item")
    else Some(p.1)
  }

  /** One iteration of the loop in mapSchwabHeadersToSheetHeaders, applied to the object built so far. */
  function SchwabStep(t: Table, normalizedData: Record, p: Pair): Record
  {
    var key := p.0;
    if key == "Check #" then normalizedData
    else
      var value := SchwabIncoming(normalizedData, p);
      var valueCategorized := if key == "RunningBalance" then Lookup(t.categorize, PropertyKey(value)) else None;
      var keyNormalized := Lookup(t.headerNormalization, key);
      var afterFallback := if !Truthy(keyNormalized) then normalizedData[key := value] else normalizedData;
      if value == Some("") && IsSchwabMoney(key) then afterFallback
      else afterFallback[PropertyKey(keyNormalized) := Or(valueCategorized, value)]
  }

  /** The loop body of the given institution's normaliser. */
  function Step(inst: Institution, t: Table, normalizedData: Record, p: Pair): Record
  {
    match inst
    case Schwab => SchwabStep(t, normalizedData, p)
    case CapitalOne => CapitalOneStep(t, normalizedData, p)
  }

  /** What the normaliser returns for a row: the loop body folded over the pairs in order, from an empty object. */
  function Row(inst: Institution, t: Table, row: seq<Pair>): Record
  {
    if row == [] then map[]
    else Step(inst, t, Row(inst, t, row[..|row| - 1]), row[|row| - 1])
  }

  /** mapCapitalOneHeadersToSheetHeaders: builds the normalised object for one Capital One row. */
  method MapCapitalOneHeadersToSheetHeaders(t: Table, data: seq<Pair>) returns (normalizedData: Record)
    ensures normalizedData == Row(CapitalOne, t, data)
  {
    normalizedData := map[];
    for i := 0 to |data|
      invariant normalizedData == Row(CapitalOne, t, data[..i])
    {
      assert data[..i + 1][..i] == data[..i];
      var (key, value) := data[i];
      var keyNormalized := Lookup(t.headerNormalization, key);
      var valueCategorized: Value := None;

      if !Truthy(keyNormalized) {
        normalizedData := normalizedData[key := Some(value)];
      }
      if key == "Category" {
        valueCategorized := Lookup(t.categorize, value);
      }
      if value == "" && (key == "Debit" || key == "Credit") {
        continue;
      }

      normalizedData := normalizedData[PropertyKey(keyNormalized) := Or(valueCategorized, Some(value))];
    }
    assert data[..|data|] == data;
  }

  /** mapSchwabHeadersToSheetHeaders: builds the normalised object for one Schwab row. */
  method MapSchwabHeadersToSheetHeaders(t: Table, data: seq<Pair>) returns (normalizedData: Record)
    ensures normalizedData == Row(Schwab, t, data)
  {
    normalizedData := map[];
    for i := 0 to |data|
      invariant normalizedData == Row(Schwab, t, data[..i])
    {
      assert data[..i + 1][..i] == data[..i];
      var key := data[i].0;
      var value: Value := Some(data[i].1);
      var keyNormalized := Lookup(t.headerNormalization, key);
      var valueCategorized: Value := None;

      if key == "Check #" {
        continue;
      }
      if key == "Type" {
        value := Get(normalizedData, "Timestamp");
      }
      if key == "RunningBalance" {
        value := Get(normalizedData, "Item");
        valueCategorized := Lookup(t.categorize, PropertyKey(value));
      }
      if !Truthy(keyNormalized) {
        normalizedData := normalizedData[key := value];
      }
      if value == Some("") && (key == "Withdrawal (-)" || key == "Deposit (+)") {
        continue;
      }

      normalizedData := normalizedData[PropertyKey(keyNormalized) := Or(valueCategorized, value)];
    }
    assert data[..|data|] == data;
  }
}
