/** The rules of mapCapitalOneHeadersToSheetHeaders, derived from the last-write-wins lemmas. */
module CapitalOneProperties {
  import opened Js
  import opened Normalizers
  import opened RowProperties

  /** The text a Capital One pair contributes under its canonical name: categorised only for the `Category` column. */
  function CategoryOrRaw(t: Table, p: Pair): string
  {
    if p.0 == "Category" && Truthy(Lookup(t.categorize, p.1)) then t.categorize[p.1] else p.1
  }

  /**
   * The canonical write: a pair that is not an empty Debit/Credit cell leaves
   * its value under the property named by its mapping, unless a later pair
   * overwrites it. The property is the mapped name when the mapping is a
   * non-empty string, "" when it is empty, and "undefined" when the column is
   * missing from the table. The value is `categorize[value]` for the
   * `Category` column when that is a non-empty string, else the raw text.
   */
  lemma {:induction false} CapitalOneCanonicalWrite(t: Table, row: seq<Pair>, i: nat)
    requires i < |row|
    requires !(row[i].1 == "" && IsCapitalOneMoney(row[i].0))
    requires forall j :: i < j < |row| ==>
               !Assigns(CapitalOne, t, row[j], PropertyKey(Lookup(t.headerNormalization, row[i].0)))
    ensures var k := PropertyKey(Lookup(t.headerNormalization, row[i].0));
            k in Row(CapitalOne, t, row) && Row(CapitalOne, t, row)[k] == Some(CategoryOrRaw(t, row[i]))
    ensures row[i].0 !in t.headerNormalization ==>
              "undefined" in Row(CapitalOne, t, row) && Row(CapitalOne, t, row)["undefined"] == Some(CategoryOrRaw(t, row[i]))
  {
    var k := PropertyKey(Lookup(t.headerNormalization, row[i].0));
    RowLastWrite(CapitalOne, t, row, i, k);
  }

  /**
   * The fallback write: a column with no mapping, or an empty one, is copied
   * under its own name with its raw text (never categorised, and written even
   * for an empty Debit/Credit cell), unless a later pair overwrites it.
   */
  lemma {:induction false} CapitalOneFallbackWrite(t: Table, row: seq<Pair>, i: nat)
    requires i < |row|
    requires !Truthy(Lookup(t.headerNormalization, row[i].0))
    requires forall j :: i < j < |row| ==> !Assigns(CapitalOne, t, row[j], row[i].0)
    ensures row[i].0 in Row(CapitalOne, t, row) && Row(CapitalOne, t, row)[row[i].0] == Some(row[i].1)
  {
    RowLastWrite(CapitalOne, t, row, i, row[i].0);
  }

  /**
   * The stray "undefined" property appears only because of a column missing
   * from the table, a column literally named "undefined", or a mapping to
   * "undefined": without any of these the result has no such property.
   */
  lemma {:induction false} CapitalOneNoStrayUndefined(t: Table, row: seq<Pair>)
    requires forall i :: 0 <= i < |row| ==>
               row[i].0 in t.headerNormalization && row[i].0 != "undefined" && t.headerNormalization[row[i].0] != "undefined"
    ensures "undefined" !in Row(CapitalOne, t, row)
  {
    RowKeys(CapitalOne, t, row, "undefined");
  }

  /**
   * Capital One never produces `undefined`, and every value of the result is
   * the raw text of some pair or the categorisation of a `Category` pair's
   * text: no other column is ever categorised.
   */
  lemma {:induction false} CapitalOneValues(t: Table, row: seq<Pair>)
    ensures forall k :: k in Row(CapitalOne, t, row) ==>
              exists i :: 0 <= i < |row| &&
                (Row(CapitalOne, t, row)[k] == Some(row[i].1) ||
                 (row[i].0 == "Category" && row[i].1 in t.categorize &&
                  Row(CapitalOne, t, row)[k] == Some(t.categorize[row[i].1])))
  {
    if row != [] {
      var n := |row| - 1;
      var front := row[..n];
      CapitalOneValues(t, front);
      var before := Row(CapitalOne, t, front);
      forall k | k in Row(CapitalOne, t, row)
        ensures exists i :: 0 <= i < |row| &&
                  (Row(CapitalOne, t, row)[k] == Some(row[i].1) ||
                   (row[i].0 == "Category" && row[i].1 in t.categorize &&
                    Row(CapitalOne, t, row)[k] == Some(t.categorize[row[i].1])))
      {
        if Assigns(CapitalOne, t, row[n], k) {
          StepAssigns(CapitalOne, t, before, row[n], k);
          assert Row(CapitalOne, t, row)[k] == Some(CategoryOrRaw(t, row[n])) || Row(CapitalOne, t, row)[k] == Some(row[n].1);
        } else {
          StepFrame(CapitalOne, t, before, row[n], k);
          var i :| 0 <= i < |front| &&
                   (before[k] == Some(front[i].1) ||
                    (front[i].0 == "Category" && front[i].1 in t.categorize && before[k] == Some(t.categorize[front[i].1])));
          assert front[i] == row[i];
        }
      }
    }
  }

  /** An example Capital One export line: the empty Credit cell is not written. */
  lemma CapitalOneExample()
    ensures
      var t := Table(
        map["Date" := "Timestamp", "Description" := "Item", "Category" := "Category", "Debit" := "Debit", "Credit" := "Credit"],
        map["Dining" := "Food & Drink"]);
      var row := [("Date", "01/02/2023"), ("Description", "Coffee"), ("Category", "Dining"), ("Debit", "4.50"), ("Credit", "")];
      Row(CapitalOne, t, row)
        == map["Timestamp" := Some("01/02/2023"), "Item" := Some("Coffee"), "Category" := Some("Food & Drink"), "Debit" := Some("4.50")]
  {
    var t := Table(
      map["Date" := "Timestamp", "Description" := "Item", "Category" := "Category", "Debit" := "Debit", "Credit" := "Credit"],
      map["Dining" := "Food & Drink"]);
    var row := [("Date", "01/02/2023"), ("Description", "Coffee"), ("Category", "Dining"), ("Debit", "4.50"), ("Credit", "")];
    assert row[..1][..0] == [] && row[..2][..1] == row[..1] && row[..3][..2] == row[..2];
    assert row[..4][..3] == row[..3] && row[..5] == row && row[..4] == row[..5][..4];
    assert Row(CapitalOne, t, row[..1]) == map["Timestamp" := Some("01/02/2023")];
    assert Row(CapitalOne, t, row[..2]) == map["Timestamp" := Some("01/02/2023"), "Item" := Some("Coffee")];
    assert Row(CapitalOne, t, row[..3])
        == map["Timestamp" := Some("01/02/2023"), "Item" := Some("Coffee"), "Category" := Some("Food & Drink")];
  }
}
