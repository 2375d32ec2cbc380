/**
 * What the normalisers of gsheets.js promise about the object they return.
 *
 * The general result is "last write wins": each pair assigns a set of
 * properties that depends only on the pair and the tables (Assigns), a
 * property of the result exists exactly when some pair assigned it, and it
 * holds what the last pair assigning it wrote, computed from the object as it
 * stood when that pair was reached (Assigned). The per-institution lemmas
 * below derive the source's individual rules from it.
 */
module RowProperties {
  import opened Js
  import opened Normalizers

  /** Whether the loop body skips the write under the canonical name for this pair. */
  predicate SkipsCanonical(inst: Institution, p: Pair)
  {
    match inst
    case CapitalOne => p.1 == "" && IsCapitalOneMoney(p.0)
    case Schwab => p.1 == "" && IsSchwabMoney(p.0)
  }

  /**
   * Whether the pair assigns property k: its own column name when the column
   * has no truthy mapping, and the property named by the mapping (possibly
   * "undefined") unless the write is skipped. Schwab never assigns anything
   * for "Check #".
   */
  predicate Assigns(inst: Institution, t: Table, p: Pair, k: string)
  {
    var keyNormalized := Lookup(t.headerNormalization, p.0);
    && (inst == Schwab ==> p.0 != "Check #")
    && ((!Truthy(keyNormalized) && k == p.0)
        || (!SkipsCanonical(inst, p) && k == PropertyKey(keyNormalized)))
  }

  /** The value the pair carries before categorisation, given the object built before it. */
  function Incoming(inst: Institution, before: Record, p: Pair): Value
  {
    match inst
    case CapitalOne => Some(p.1)
    case Schwab => SchwabIncoming(before, p)
  }

  /** The categorised value, if the pair's column is the one its institution categorises. */
  function Categorized(inst: Institution, t: Table, before: Record, p: Pair): Value
  {
    match inst
    case CapitalOne => if p.0 == "Category" then Lookup(t.categorize, p.1) else None
    case Schwab => if p.0 == "RunningBalance" then Lookup(t.categorize, PropertyKey(SchwabIncoming(before, p))) else None
  }

  /**
   * The value the pair leaves in property k: the categorised value when it is
   * a non-empty string, otherwise the incoming value, if k is the canonical
   * target; the incoming value if k is only the fallback target.
   */
  function Assigned(inst: Institution, t: Table, before: Record, p: Pair, k: string): Value
  {
    var keyNormalized := Lookup(t.headerNormalization, p.0);
    var incoming := Incoming(inst, before, p);
    if !SkipsCanonical(inst, p) && k == PropertyKey(keyNormalized)
    then Or(Categorized(inst, t, before, p), incoming)
    else incoming
  }

  /** A property the pair does not assign is left as it was. */
  lemma StepFrame(inst: Institution, t: Table, before: Record, p: Pair, k: string)
    requires !Assigns(inst, t, p, k)
    ensures (k in Step(inst, t, before, p)) == (k in before)
    ensures Get(Step(inst, t, before, p), k) == Get(before, k)
  {
  }

  /** A property the pair assigns exists afterwards and holds Assigned. */
  lemma StepAssigns(inst: Institution, t: Table, before: Record, p: Pair, k: string)
    requires Assigns(inst, t, p, k)
    ensures k in Step(inst, t, before, p)
    ensures Step(inst, t, before, p)[k] == Assigned(inst, t, before, p, k)
  {
  }

  /** The property k exists in the result exactly when some pair of the row assigns it. */
  lemma {:induction false} RowKeys(inst: Institution, t: Table, row: seq<Pair>, k: string)
    ensures k in Row(inst, t, row) <==> exists i :: 0 <= i < |row| && Assigns(inst, t, row[i], k)
  {
    if row != [] {
      var n := |row| - 1;
      var front := row[..n];
      RowKeys(inst, t, front, k);
      if Assigns(inst, t, row[n], k) {
        StepAssigns(inst, t, Row(inst, t, front), row[n], k);
      } else {
        StepFrame(inst, t, Row(inst, t, front), row[n], k);
        if exists i :: 0 <= i < |row| && Assigns(inst, t, row[i], k) {
          var i :| 0 <= i < |row| && Assigns(inst, t, row[i], k);
          assert front[i] == row[i];
        }
      }
    }
  }

  /**
   * Last write wins: when pair i assigns k and no later pair does, property k
   * of the result holds what pair i wrote, computed from the object built by
   * the pairs before it.
   */
  lemma {:induction false} RowLastWrite(inst: Institution, t: Table, row: seq<Pair>, i: nat, k: string)
    requires i < |row| && Assigns(inst, t, row[i], k)
    requires forall j :: i < j < |row| ==> !Assigns(inst, t, row[j], k)
    ensures k in Row(inst, t, row)
    ensures Row(inst, t, row)[k] == Assigned(inst, t, Row(inst, t, row[..i]), row[i], k)
  {
    var n := |row| - 1;
    var front := row[..n];
    if i == n {
      StepAssigns(inst, t, Row(inst, t, front), row[n], k);
    } else {
      assert front[..i] == row[..i];
      forall j | i < j < |front| ensures !Assigns(inst, t, front[j], k) {
        assert front[j] == row[j];
      }
      RowLastWrite(inst, t, front, i, k);
      StepFrame(inst, t, Row(inst, t, front), row[n], k);
    }
  }

  /**
   * An empty cell in a money column writes nothing under its canonical name,
   * and the row still yields an object: appending such a pair changes at most
   * the fallback property named after the column itself (when the column has
   * no truthy mapping).
   */
  lemma {:induction false} EmptyMoneyCell(inst: Institution, t: Table, row: seq<Pair>, p: Pair)
    requires SkipsCanonical(inst, p)
    ensures Row(inst, t, row + [p])
         == if Truthy(Lookup(t.headerNormalization, p.0)) then Row(inst, t, row)
            else Row(inst, t, row)[p.0 := Some("")]
  {
    assert (row + [p])[..|row|] == row;
  }
}
