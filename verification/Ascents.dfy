/** Strictly ascending lists of positions. */
module Ascents {

  predicate Ascending(rows: seq<nat>) {
    forall a, b :: 0 <= a < b < |rows| ==> rows[a] < rows[b]
  }

  lemma AscendingAppend(rows: seq<nat>, i: nat)
    requires Ascending(rows) && forall k :: k in rows ==> k < i
    ensures Ascending(rows + [i])
  {
    var longer: seq<nat> := rows + [i];
    forall a, b | 0 <= a < b < |longer| ensures longer[a] < longer[b] {
      assert rows[a] in rows;
    }
    assert Ascending(longer);
  }
}
