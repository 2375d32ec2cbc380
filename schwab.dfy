/** The rules of mapSchwabHeadersToSheetHeaders, derived from the last-write-wins lemmas. */
module SchwabProperties {
  import opened Js
  import opened Normalizers
  import opened RowProperties

  /** The row with every `Check #` pair removed, other pairs kept in order. */
  function WithoutCheckNumber(row: seq<Pair>): (r: seq<Pair>)
    ensures |r| <= |row|
    ensures forall i :: 0 <= i < |r| ==> r[i].0 != "Check #" && r[i] in row
    ensures forall i :: 0 <= i < |row| && row[i].0 != "Check #" ==> row[i] in r
  {
    if row == [] then []
    else
      var front := WithoutCheckNumber(row[..|row| - 1]);
      var last := row[|row| - 1];
      assert forall i :: 0 <= i < |row| - 1 ==> row[i] == row[..|row| - 1][i];
      if last.0 == "Check #" then front else front + [last]
  }

  /** Removing `Check #` pairs is an order-preserving filter: it distributes over concatenation. */
  lemma {:induction false} WithoutCheckNumberConcat(a: seq<Pair>, b: seq<Pair>)
    ensures WithoutCheckNumber(a + b) == WithoutCheckNumber(a) + WithoutCheckNumber(b)
  {
    if b != [] {
      var n := |b| - 1;
      assert (a + b)[..|a + b| - 1] == a + b[..n];
      assert (a + b)[|a + b| - 1] == b[n];
      WithoutCheckNumberConcat(a, b[..n]);
      var tail := if b[n].0 == "Check #" then [] else [b[n]];
      assert WithoutCheckNumber(b) == WithoutCheckNumber(b[..n]) + tail;
      assert WithoutCheckNumber(a + b) == WithoutCheckNumber(a + b[..n]) + tail;
    } else {
      assert a + b == a;
    }
  }

  /** A `Check #` pair contributes nothing, whatever its text and whether or not it is mapped. */
  lemma {:induction false} SchwabIgnoresCheckNumber(t: Table, row: seq<Pair>)
    ensures Row(Schwab, t, row) == Row(Schwab, t, WithoutCheckNumber(row))
  {
    if row != [] {
      var n := |row| - 1;
      var front := row[..n];
      SchwabIgnoresCheckNumber(t, front);
      if row[n].0 != "Check #" {
        var kept := WithoutCheckNumber(front) + [row[n]];
        assert kept[..|kept| - 1] == WithoutCheckNumber(front);
      }
    }
  }

  /**
   * Every property a `Type` pair writes (its canonical name, and its own name
   * when unmapped) ends up holding what `Timestamp` held when the pair was
   * reached, unless a later pair overwrites it; that is `undefined` when no
   * earlier pair had written `Timestamp`. The cell text of `Type` is never used.
   */
  lemma {:induction false} SchwabTypeCopiesTimestamp(t: Table, row: seq<Pair>, i: nat, k: string)
    requires i < |row| && row[i].0 == "Type"
    requires Assigns(Schwab, t, row[i], k)
    requires forall j :: i < j < |row| ==> !Assigns(Schwab, t, row[j], k)
    ensures k in Row(Schwab, t, row)
    ensures Row(Schwab, t, row)[k] == Get(Row(Schwab, t, row[..i]), "Timestamp")
    ensures (forall j :: 0 <= j < i ==> !Assigns(Schwab, t, row[j], "Timestamp")) ==> Row(Schwab, t, row)[k] == None
  {
    RowLastWrite(Schwab, t, row, i, k);
    RowKeys(Schwab, t, row[..i], "Timestamp");
    if exists j :: 0 <= j < i && Assigns(Schwab, t, row[..i][j], "Timestamp") {
      var j :| 0 <= j < i && Assigns(Schwab, t, row[..i][j], "Timestamp");
      assert row[..i][j] == row[j];
    }
  }

  /**
   * A `RunningBalance` pair takes the `Item` written so far in the row and
   * stores under its canonical name `categorize[Item]` when that is a
   * non-empty string, otherwise the `Item` value itself; under its own name
   * (when unmapped) it stores the `Item` value uncategorised.
   */
  lemma {:induction false} SchwabRunningBalanceFromItem(t: Table, row: seq<Pair>, i: nat, k: string)
    requires i < |row| && row[i].0 == "RunningBalance"
    requires Assigns(Schwab, t, row[i], k)
    requires forall j :: i < j < |row| ==> !Assigns(Schwab, t, row[j], k)
    ensures k in Row(Schwab, t, row)
    ensures var item := Get(Row(Schwab, t, row[..i]), "Item");
            Row(Schwab, t, row)[k]
              == if k == PropertyKey(Lookup(t.headerNormalization, "RunningBalance"))
                 then Or(Lookup(t.categorize, PropertyKey(item)), item)
                 else item
  {
    RowLastWrite(Schwab, t, row, i, k);
  }

  /**
   * With no `Item` written before it, a `RunningBalance` pair looks up
   * `categorize["undefined"]` for its canonical name and stores `undefined`
   * under its own name.
   */
  lemma {:induction false} SchwabRunningBalanceBeforeItem(t: Table, row: seq<Pair>, i: nat, k: string)
    requires i < |row| && row[i].0 == "RunningBalance"
    requires Assigns(Schwab, t, row[i], k)
    requires forall j :: i < j < |row| ==> !Assigns(Schwab, t, row[j], k)
    requires forall j :: 0 <= j < i ==> !Assigns(Schwab, t, row[j], "Item")
    ensures k in Row(Schwab, t, row)
    ensures Row(Schwab, t, row)[k]
              == if k == PropertyKey(Lookup(t.headerNormalization, "RunningBalance"))
                 then Or(Lookup(t.categorize, "undefined"), None)
                 else None
  {
    SchwabRunningBalanceFromItem(t, row, i, k);
    forall j | 0 <= j < i ensures !Assigns(Schwab, t, row[..i][j], "Item") {
      assert row[..i][j] == row[j];
    }
    RowKeys(Schwab, t, row[..i], "Item");
  }

  /**
   * Every other Schwab column (not `Check #`, `Type` or `RunningBalance`)
   * leaves its raw cell text, never categorised, in each property it writes,
   * unless a later pair overwrites it.
   */
  lemma {:induction false} SchwabPlainColumn(t: Table, row: seq<Pair>, i: nat, k: string)
    requires i < |row| && row[i].0 != "Type" && row[i].0 != "RunningBalance"
    requires Assigns(Schwab, t, row[i], k)
    requires forall j :: i < j < |row| ==> !Assigns(Schwab, t, row[j], k)
    ensures k in Row(Schwab, t, row) && Row(Schwab, t, row)[k] == Some(row[i].1)
  {
    RowLastWrite(Schwab, t, row, i, k);
  }

  /**
   * The result depends on column order: with `Date` mapped to `Timestamp`,
   * `Type` copies the date when it comes after `Date` and is `undefined`
   * when it comes first. A `RunningBalance` after `Description` (mapped to
   * `Item`) is categorised from the description.
   */
  lemma SchwabColumnOrderMatters()
    ensures
      var t := Table(
        map["Date" := "Timestamp", "Type" := "Type", "Description" := "Item", "RunningBalance" := "Category"],
        map["Grocery Store" := "Food"]);
      && Row(Schwab, t, [("Date", "03/04/2023"), ("Type", "ATM")])["Type"] == Some("03/04/2023")
      && Row(Schwab, t, [("Type", "ATM"), ("Date", "03/04/2023")])["Type"] == None
      && Row(Schwab, t, [("Description", "Grocery Store"), ("RunningBalance", "1,000.00")])["Category"] == Some("Food")
  {
    var t := Table(
      map["Date" := "Timestamp", "Type" := "Type", "Description" := "Item", "RunningBalance" := "Category"],
      map["Grocery Store" := "Food"]);
    var a := [("Date", "03/04/2023"), ("Type", "ATM")];
    var b := [("Type", "ATM"), ("Date", "03/04/2023")];
    var c := [("Description", "Grocery Store"), ("RunningBalance", "1,000.00")];
    assert a[..1][..0] == [] && b[..1][..0] == [] && c[..1][..0] == [];
    assert Row(Schwab, t, a[..1]) == map["Timestamp" := Some("03/04/2023")];
    assert Row(Schwab, t, b[..1]) == map["Type" := None];
    assert Row(Schwab, t, c[..1]) == map["Item" := Some("Grocery Store")];
  }
}
