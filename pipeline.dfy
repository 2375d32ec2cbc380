/**
 * The per-row collect loop of normalizeCsv: for every parsed row, look up the
 * normaliser of the configured institution in the dispatch table, apply it and
 * append the result. Reading the CSV and writing the outputs are not part of
 * this module; the parsed rows arrive as a sequence.
 */
module Pipeline {
  import opened Js
  import opened Normalizers

  /**
   * normalizeHeadersFunctions: only "schwab" and "capitalOne" select a
   * normaliser; every other name has no entry.
   */
  const NormalizeHeadersFunctions: map<string, Institution> := map["schwab" := Schwab, "capitalOne" := CapitalOne]

  /**
   * The outcome of the collect loop: the collected objects, or the TypeError
   * raised when the configured name has no entry in the dispatch table and
   * there is a row to apply it to.
   */
  datatype Outcome = Collected(data: seq<Record>) | NotAFunction(serviceNameConfigKey: string)

  /**
   * Every row yields exactly one pushed object, in input order; no row is
   * dropped. An unknown institution name fails at the first row, and only if
   * there is one.
   */
  method CollectRows(serviceNameConfigKey: string, t: Table, rows: seq<seq<Pair>>) returns (result: Outcome)
    ensures result.NotAFunction? <==> serviceNameConfigKey !in NormalizeHeadersFunctions && |rows| > 0
    ensures result.NotAFunction? ==> result.serviceNameConfigKey == serviceNameConfigKey
    ensures result.Collected? ==> |result.data| == |rows|
    ensures result.Collected? ==>
              forall i :: 0 <= i < |rows| ==>
                serviceNameConfigKey in NormalizeHeadersFunctions &&
                result.data[i] == Row(NormalizeHeadersFunctions[serviceNameConfigKey], t, rows[i])
  {
    var data: seq<Record> := [];
    for i := 0 to |rows|
      invariant |data| == i
      invariant i > 0 ==> serviceNameConfigKey in NormalizeHeadersFunctions
      invariant forall j :: 0 <= j < i ==> data[j] == Row(NormalizeHeadersFunctions[serviceNameConfigKey], t, rows[j])
    {
      if serviceNameConfigKey !in NormalizeHeadersFunctions {
        return NotAFunction(serviceNameConfigKey);
      }
      var normalizedData: Record;
      match NormalizeHeadersFunctions[serviceNameConfigKey] {
        case Schwab =>
          normalizedData := MapSchwabHeadersToSheetHeaders(t, rows[i]);
        case CapitalOne =>
          normalizedData := MapCapitalOneHeadersToSheetHeaders(t, rows[i]);
      }
      data := data + [normalizedData];
    }
    return Collected(data);
  }
}
