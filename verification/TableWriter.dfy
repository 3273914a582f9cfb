/** Saving a table: the parent links, which may form any graph, turned into nested records. */
module TableWriter {
  import opened Text
  import opened XmlTokens
  import opened TableRecord
  import opened TableXml

  datatype Row = Row(record: Record, parentId: int)

  /** The first record with that non-zero identifier. */
  function IndexOf(rows: seq<Row>, id: int, from: nat): (i: Option<nat>)
    requires from <= |rows|
    ensures i.Some? ==> from <= i.value < |rows| && rows[i.value].record.id == id && id != 0
    ensures i.None? && id != 0 ==> forall k :: from <= k < |rows| ==> rows[k].record.id != id
    decreases |rows| - from
  {
    if from == |rows| then None
    else if rows[from].record.id == id && id != 0 then Some(from)
    else IndexOf(rows, id, from + 1)
  }

  /** The record a record is nested under, if any. */
  function ParentOf(rows: seq<Row>, i: nat): (p: Option<nat>)
    requires i < |rows|
    ensures p.Some? ==> p.value < |rows| && p.value != i && rows[p.value].record.id == rows[i].parentId
  {
    if rows[i].parentId == -1 then None
    else
      var p := IndexOf(rows, rows[i].parentId, 0);
      if p.Some? && p.value == i then None else p
  }

  predicate Within(rows: seq<Row>, list: seq<nat>) {
    forall k :: 0 <= k < |list| ==> list[k] < |rows|
  }

  predicate Distinct(list: seq<nat>) {
    forall a, b :: 0 <= a < b < |list| ==> list[a] != list[b]
  }

  /** The rows below `n` whose parent is `p`, in order. */
  function WithParent(rows: seq<Row>, p: Option<nat>, n: nat): (list: seq<nat>)
    requires n <= |rows|
    ensures Within(rows, list) && Distinct(list)
    ensures forall i: nat :: i in list <==> i < n && ParentOf(rows, i) == p
  {
    if n == 0 then []
    else
      var before := WithParent(rows, p, n - 1);
      if ParentOf(rows, n - 1) == p then before + [n - 1] else before
  }

  function Children(rows: seq<Row>, i: nat): (list: seq<nat>)
    ensures Within(rows, list) && Distinct(list)
    ensures forall k: nat :: k in list <==> k < |rows| && ParentOf(rows, k) == Some(i)
  {
    WithParent(rows, Some(i), |rows|)
  }

  function Roots(rows: seq<Row>): (list: seq<nat>)
    ensures Within(rows, list) && Distinct(list)
    ensures forall k: nat :: k in list <==> k < |rows| && ParentOf(rows, k) == None
  {
    WithParent(rows, None, |rows|)
  }

  function Upto(n: nat): (s: set<nat>)
    ensures forall i: nat :: i in s <==> i < n
    ensures |s| == n
  {
    if n == 0 then {} else Upto(n - 1) + {n - 1}
  }

  // ----- writing with a done mark -----

  /** Records by their row, as they are nested in the text. */
  datatype Nest = Leaf | Write(row: nat, hasList: bool, kids: Nest, rest: Nest)

  datatype Written = Written(nest: Nest, done: set<nat>)

  /** Write the rows of a list, each with its children, leaving out the rows already done. */
  function WriteMany(rows: seq<Row>, list: seq<nat>, done: set<nat>): (w: Written)
    requires Within(rows, list)
    ensures done <= w.done && w.done - done <= Upto(|rows|)
    decreases |Upto(|rows|) - done|, |list|
  {
    if list == [] then Written(Leaf, done)
    else
      var i := list[0];
      if i in done then WriteMany(rows, list[1..], done)
      else
        var left := Upto(|rows|) - done;
        assert Upto(|rows|) - (done + {i}) == left - {i};
        var kids := WriteMany(rows, Children(rows, i), done + {i});
        assert Upto(|rows|) - kids.done <= left - {i};
        SubsetSize(Upto(|rows|) - kids.done, left - {i});
        var rest := WriteMany(rows, list[1..], kids.done);
        Written(Write(i, Children(rows, i) != [], kids.nest, rest.nest), rest.done)
  }

  lemma SubsetSize(a: set<nat>, b: set<nat>)
    requires a <= b
    ensures |a| <= |b|
  {
    assert b == a + (b - a);
  }

  function AppendNest(f: Nest, g: Nest): Nest {
    match f
    case Leaf => g
    case Write(i, hasList, kids, rest) => Write(i, hasList, kids, AppendNest(rest, g))
  }

  function AllRows(n: nat): (list: seq<nat>)
    ensures |list| == n && forall k :: 0 <= k < n ==> list[k] == k
  {
    seq(n, k requires 0 <= k < n => k)
  }

  /** The roots first, then whatever they did not reach. */
  function Saved(rows: seq<Row>): Nest {
    var first := WriteMany(rows, Roots(rows), {});
    AppendNest(first.nest, WriteMany(rows, AllRows(|rows|), first.done).nest)
  }

  // ----- every record exactly once -----

  /** The rows in the order they are written. */
  function Order(f: Nest): seq<nat> {
    match f
    case Leaf => []
    case Write(i, _, kids, rest) => [i] + Order(kids) + Order(rest)
  }

  lemma {:induction false} OrderAppend(f: Nest, g: Nest)
    ensures Order(AppendNest(f, g)) == Order(f) + Order(g)
  {
    match f
    case Leaf =>
    case Write(i, _, kids, rest) => OrderAppend(rest, g);
  }

  lemma {:induction false} WritesOnce(rows: seq<Row>, list: seq<nat>, done: set<nat>)
    requires Within(rows, list)
    ensures var w := WriteMany(rows, list, done);
            multiset(Order(w.nest)) == multiset(w.done - done) && forall i :: i in list ==> i in w.done
    decreases |Upto(|rows|) - done|, |list|
  {
    hide Children, Upto;
    if list != [] {
      var i := list[0];
      if i in done {
        WritesOnce(rows, list[1..], done);
      } else {
        OneLess(|rows|, done, i);
        WritesOnce(rows, Children(rows, i), done + {i});
        var kids := WriteMany(rows, Children(rows, i), done + {i});
        FewerLeft(|rows|, done + {i}, kids.done);
        WritesOnce(rows, list[1..], kids.done);
        var rest := WriteMany(rows, list[1..], kids.done);
        NewOnes(done, i, kids.done, rest.done);
        assert Order(WriteMany(rows, list, done).nest) == [i] + Order(kids.nest) + Order(rest.nest);
      }
      assert forall k :: k in list ==> k == list[0] || k in list[1..];
    }
  }

  lemma NewOnes(done: set<nat>, i: nat, a: set<nat>, b: set<nat>)
    requires i !in done && done + {i} <= a <= b
    ensures multiset(b - done) == multiset{i} + multiset(a - (done + {i})) + multiset(b - a)
  {
    assert b - done == {i} + (a - (done + {i})) + (b - a);
  }

  lemma OneLess(n: nat, done: set<nat>, i: nat)
    requires i < n && i !in done
    ensures |Upto(n) - (done + {i})| < |Upto(n) - done|
  {
    assert Upto(n) - (done + {i}) == (Upto(n) - done) - {i};
  }

  lemma FewerLeft(n: nat, a: set<nat>, b: set<nat>)
    requires a <= b
    ensures |Upto(n) - b| <= |Upto(n) - a|
  {
    SubsetSize(Upto(n) - b, Upto(n) - a);
  }

  /** For any parent links at all, cycles, self-parents, repeated identifiers and missing parents included,
      the file holds every record exactly once. */
  lemma SaveCoversAll(rows: seq<Row>)
    ensures multiset(Order(Saved(rows))) == multiset(Upto(|rows|))
  {
    hide WriteMany, Upto, Roots, AppendNest, Order;
    var first := WriteMany(rows, Roots(rows), {});
    var second := WriteMany(rows, AllRows(|rows|), first.done);
    WritesOnce(rows, Roots(rows), {});
    WritesOnce(rows, AllRows(|rows|), first.done);
    OrderAppend(first.nest, second.nest);
    assert second.done == Upto(|rows|) by {
      forall i: nat | i < |rows| ensures i in second.done {
        assert AllRows(|rows|)[i] == i;
      }
    }
    assert first.done - {} == first.done;
    TwoParts(first.done, second.done);
  }

  lemma TwoParts(a: set<nat>, b: set<nat>)
    requires a <= b
    ensures multiset(b) == multiset(a) + multiset(b - a)
  {
    assert b == a + (b - a);
  }
}
