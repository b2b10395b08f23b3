/** The provisioning ledger (apps/api/app/models/copier_provisioning.py) and its
    reading by date (`_owner_map` in apps/api/app/copiers/account_counters.py). */
module Ledger {
  import opened Prelude

  /** A person's stay in one account of one copier: [provisionedAt, removedAt). */
  datatype Row = Row(email: string, code: string, slot: string, provisionedAt: int, removedAt: Option<int>)

  predicate Live(row: Row) {
    row.removedAt.None?
  }

  predicate Covers(row: Row, slot: string, at: int) {
    row.slot == slot && row.provisionedAt <= at && (row.removedAt.None? || at < row.removedAt.value)
  }

  /** Who held `slot` at `at`: of the covering rows, the last in provisioning order. */
  function OwnerAt(rows: seq<Row>, slot: string, at: int): Option<Row> {
    if rows == [] then None
    else if Covers(rows[|rows| - 1], slot, at) then Some(rows[|rows| - 1])
    else OwnerAt(rows[..|rows| - 1], slot, at)
  }

  /** `_owner_map`, over the rows in provisioning order. */
  method OwnerMap(rows: seq<Row>, at: int) returns (owners: map<string, Row>)
    ensures forall slot :: Found(owners, slot) == OwnerAt(rows, slot, at)
  {
    owners := map[];
    for i := 0 to |rows|
      invariant forall slot :: Found(owners, slot) == OwnerAt(rows[..i], slot, at)
    {
      var row := rows[i];
      assert rows[..i + 1][..i] == rows[..i];
      if row.provisionedAt > at {
      } else if row.removedAt.Some? && row.removedAt.value <= at {
      } else {
        owners := owners[row.slot := row];
      }
    }
    assert rows[..|rows|] == rows;
  }

  /** Stays in one account follow one another: each is over before the next begins. */
  ghost predicate InSequence(rows: seq<Row>) {
    && (forall i :: 0 <= i < |rows| && rows[i].removedAt.Some? ==> rows[i].provisionedAt <= rows[i].removedAt.value)
    && (forall i, j :: 0 <= i < j < |rows| && rows[i].slot == rows[j].slot ==>
         rows[i].removedAt.Some? && rows[i].removedAt.value <= rows[j].provisionedAt)
  }

  /** At most one row covers an account at any instant, so the owner does not depend
      on the order in which the rows are read. */
  lemma {:induction false} OwnerIsTheCoveringRow(rows: seq<Row>, slot: string, at: int)
    requires InSequence(rows)
    ensures forall i :: 0 <= i < |rows| && Covers(rows[i], slot, at) ==> OwnerAt(rows, slot, at) == Some(rows[i])
    ensures OwnerAt(rows, slot, at).Some? ==> OwnerAt(rows, slot, at).value in rows && Covers(OwnerAt(rows, slot, at).value, slot, at)
    ensures forall i, j :: 0 <= i < |rows| && 0 <= j < |rows| && Covers(rows[i], slot, at) && Covers(rows[j], slot, at) ==> i == j
  {
    if rows != [] {
      var n := |rows| - 1;
      OwnerIsTheCoveringRow(rows[..n], slot, at);
      assert rows == rows[..n] + [rows[n]];
    }
  }
}
