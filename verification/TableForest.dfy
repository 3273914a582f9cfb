/** Which nesting a saved table has, and what loading it gives back. */
module TableForest {
  import opened Text
  import opened XmlTokens
  import opened TableRecord
  import opened TableXml
  import opened TableWriter

  /** The rows at the outermost level. */
  function Tops(f: Nest): seq<nat> {
    match f
    case Leaf => []
    case Write(i, _, _, rest) => [i] + Tops(rest)
  }

  /** Every record is followed by exactly its children, in table order: the text is in depth-first order. */
  predicate FullKids(rows: seq<Row>, f: Nest) {
    match f
    case Leaf => true
    case Write(i, _, kids, rest) =>
      i < |rows| && Tops(kids) == Children(rows, i) && FullKids(rows, kids) && FullKids(rows, rest)
  }

  predicate ParentsDone(rows: seq<Row>, done: set<nat>) {
    forall x: nat :: x in done && x < |rows| && ParentOf(rows, x).Some? ==> ParentOf(rows, x).value in done
  }

  /** The rows added have their parents among them, or are from the list. */
  predicate FromList(rows: seq<Row>, list: seq<nat>, added: set<nat>) {
    forall x: nat :: x in added ==> x in list || (x < |rows| && ParentOf(rows, x).Some? && ParentOf(rows, x).value in added)
  }

  /** Siblings that are not written yet, whose parent is. */
  predicate Fresh(rows: seq<Row>, list: seq<nat>, done: set<nat>, parent: Option<nat>) {
    && Within(rows, list) && Distinct(list) && ParentsDone(rows, done)
    && (forall k :: 0 <= k < |list| ==> ParentOf(rows, list[k]) == parent && list[k] !in done)
    && (parent.Some? ==> parent.value in done)
  }

  lemma ChildrenAreFresh(rows: seq<Row>, list: seq<nat>, done: set<nat>, parent: Option<nat>)
    requires list != [] && Fresh(rows, list, done, parent)
    ensures Fresh(rows, Children(rows, list[0]), done + {list[0]}, Some(list[0]))
  {
    var i := list[0];
    var c := Children(rows, i);
    forall k | 0 <= k < |c| ensures ParentOf(rows, c[k]) == Some(i) && c[k] !in done + {i} {
      assert c[k] in c;
    }
  }

  lemma RestIsFresh(rows: seq<Row>, list: seq<nat>, done: set<nat>, parent: Option<nat>, after: set<nat>)
    requires list != [] && Fresh(rows, list, done, parent) && done + {list[0]} <= after && ParentsDone(rows, after)
    requires FromList(rows, Children(rows, list[0]), after - (done + {list[0]}))
    ensures Fresh(rows, list[1..], after, parent)
  {
    var i := list[0];
    forall k | 0 <= k < |list[1..]| ensures list[1..][k] !in after {
      var y := list[k + 1];
      assert list[1..][k] == y && y != i && y !in done && ParentOf(rows, y) == parent;
    }
  }

  lemma AddedFromList(rows: seq<Row>, list: seq<nat>, done: set<nat>, a: set<nat>, b: set<nat>)
    requires list != [] && list[0] !in done && done + {list[0]} <= a <= b
    requires FromList(rows, Children(rows, list[0]), a - (done + {list[0]})) && FromList(rows, list[1..], b - a)
    ensures FromList(rows, list, b - done)
  {
    var i := list[0];
    forall x: nat | x in b - done
      ensures x in list || (x < |rows| && ParentOf(rows, x).Some? && ParentOf(rows, x).value in b - done)
    {
      if x in b - a {
        assert x in list[1..] ==> x in list;
      } else if x != i {
        assert x in a - (done + {i});
      }
    }
  }

  /** Written from fresh siblings, nothing is left out: the done mark never cuts a branch short. */
  lemma {:induction false} NothingCut(rows: seq<Row>, list: seq<nat>, done: set<nat>, parent: Option<nat>)
    requires Fresh(rows, list, done, parent)
    ensures var w := WriteMany(rows, list, done);
            && Tops(w.nest) == list && FullKids(rows, w.nest) && ParentsDone(rows, w.done)
            && FromList(rows, list, w.done - done)
    decreases |Upto(|rows|) - done|, |list|
  {
    hide Children, Upto, ParentsDone, FromList, Fresh;
    if list == [] {
      NothingAdded(rows, done);
      FreshMeans(rows, list, done, parent);
    } else {
      var i := list[0];
      FreshMeans(rows, list, done, parent);
      ChildrenAreFresh(rows, list, done, parent);
      OneLess(|rows|, done, i);
      NothingCut(rows, Children(rows, i), done + {i}, Some(i));
      var kids := WriteMany(rows, Children(rows, i), done + {i});
      RestIsFresh(rows, list, done, parent, kids.done);
      FewerLeft(|rows|, done + {i}, kids.done);
      NothingCut(rows, list[1..], kids.done, parent);
      AddedFromList(rows, list, done, kids.done, WriteMany(rows, list[1..], kids.done).done);
      assert [i] + list[1..] == list;
    }
  }

  lemma NothingAdded(rows: seq<Row>, done: set<nat>)
    ensures FromList(rows, [], done - done)
  {
  }

  lemma FreshMeans(rows: seq<Row>, list: seq<nat>, done: set<nat>, parent: Option<nat>)
    requires Fresh(rows, list, done, parent)
    ensures Within(rows, list) && ParentsDone(rows, done)
    ensures list != [] ==> list[0] !in done && list[0] < |rows|
  {
  }

  // ----- forests -----

  /** Some ranking puts every record after its parent: the links have no cycle. */
  predicate Ranked(rows: seq<Row>, rank: seq<nat>) {
    |rank| == |rows| && forall i: nat :: i < |rows| && ParentOf(rows, i).Some? ==> rank[ParentOf(rows, i).value] < rank[i]
  }

  predicate ChildrenDone(rows: seq<Row>, some: set<nat>, done: set<nat>) {
    forall x, c: nat :: x in some && c < |rows| && ParentOf(rows, c) == Some(x) ==> c in done
  }

  lemma {:induction false} KidsAreWritten(rows: seq<Row>, list: seq<nat>, done: set<nat>)
    requires Within(rows, list)
    ensures ChildrenDone(rows, WriteMany(rows, list, done).done - done, WriteMany(rows, list, done).done)
    decreases |Upto(|rows|) - done|, |list|
  {
    hide Children, Upto;
    if list != [] {
      var i := list[0];
      if i in done {
        KidsAreWritten(rows, list[1..], done);
      } else {
        OneLess(|rows|, done, i);
        KidsAreWritten(rows, Children(rows, i), done + {i});
        WritesOnce(rows, Children(rows, i), done + {i});
        var kids := WriteMany(rows, Children(rows, i), done + {i});
        FewerLeft(|rows|, done + {i}, kids.done);
        KidsAreWritten(rows, list[1..], kids.done);
      }
    }
  }

  lemma {:induction false} RootsReach(rows: seq<Row>, rank: seq<nat>, i: nat)
    requires Ranked(rows, rank) && i < |rows|
    ensures i in WriteMany(rows, Roots(rows), {}).done
    decreases rank[i]
  {
    hide WriteMany, Roots;
    WritesOnce(rows, Roots(rows), {});
    if ParentOf(rows, i).Some? {
      RootsReach(rows, rank, ParentOf(rows, i).value);
      KidsAreWritten(rows, Roots(rows), {});
    }
  }

  lemma {:induction false} AllDone(rows: seq<Row>, list: seq<nat>, done: set<nat>)
    requires Within(rows, list) && forall i :: i in list ==> i in done
    ensures WriteMany(rows, list, done) == Written(Leaf, done)
    decreases |list|
  {
    if list != [] {
      AllDone(rows, list[1..], done);
    }
  }

  lemma {:induction false} AppendLeaf(f: Nest)
    ensures AppendNest(f, Leaf) == f
  {
    match f
    case Leaf =>
    case Write(_, _, _, rest) => AppendLeaf(rest);
  }

  lemma RootsAreFresh(rows: seq<Row>)
    ensures Fresh(rows, Roots(rows), {}, None)
  {
    var r := Roots(rows);
    assert forall k :: 0 <= k < |r| ==> r[k] in r;
  }

  /** When the links have no cycle, the text is the depth-first walk from the roots. */
  lemma ForestIsDepthFirst(rows: seq<Row>, rank: seq<nat>)
    requires Ranked(rows, rank)
    ensures Saved(rows) == WriteMany(rows, Roots(rows), {}).nest
    ensures Tops(Saved(rows)) == Roots(rows) && FullKids(rows, Saved(rows))
  {
    hide WriteMany, Roots, Ranked;
    var first := WriteMany(rows, Roots(rows), {});
    forall i | i in AllRows(|rows|) ensures i in first.done {
      RootsReach(rows, rank, i);
    }
    AllDone(rows, AllRows(|rows|), first.done);
    AppendLeaf(first.nest);
    RootsAreFresh(rows);
    NothingCut(rows, Roots(rows), {}, None);
  }

  // ----- the text and its loading -----

  function ToForest(rows: seq<Row>, f: Nest): Forest {
    match f
    case Leaf => Nil
    case Write(i, hasList, kids, rest) =>
      if i < |rows| then Entry(rows[i].record, hasList, ToForest(rows, kids), ToForest(rows, rest)) else Nil
  }

  /** Nested records are nested under their parents; a list is written where there is something in it. */
  predicate Nested(rows: seq<Row>, f: Nest, p: Option<nat>) {
    match f
    case Leaf => true
    case Write(i, hasList, kids, rest) =>
      && i < |rows| && (p.Some? ==> ParentOf(rows, i) == p) && (hasList || kids.Leaf?)
      && Nested(rows, kids, Some(i)) && Nested(rows, rest, p)
  }

  lemma {:induction false} WrittenIsNested(rows: seq<Row>, list: seq<nat>, done: set<nat>, p: Option<nat>)
    requires Within(rows, list) && (p.Some? ==> forall k :: 0 <= k < |list| ==> ParentOf(rows, list[k]) == p)
    ensures Nested(rows, WriteMany(rows, list, done).nest, p)
    decreases |Upto(|rows|) - done|, |list|
  {
    hide Children, Upto;
    if list != [] {
      var i := list[0];
      if i in done {
        WrittenIsNested(rows, list[1..], done, p);
      } else {
        OneLess(|rows|, done, i);
        var c := Children(rows, i);
        assert forall k :: 0 <= k < |c| ==> c[k] in c;
        WrittenIsNested(rows, c, done + {i}, Some(i));
        var kids := WriteMany(rows, c, done + {i});
        FewerLeft(|rows|, done + {i}, kids.done);
        WrittenIsNested(rows, list[1..], kids.done, p);
      }
    }
  }

  lemma {:induction false} NestedAppend(rows: seq<Row>, f: Nest, g: Nest)
    requires Nested(rows, f, None) && Nested(rows, g, None)
    ensures Nested(rows, AppendNest(f, g), None)
  {
    match f
    case Leaf =>
    case Write(_, _, _, rest) => NestedAppend(rows, rest, g);
  }

  lemma SavedIsNested(rows: seq<Row>)
    ensures Nested(rows, Saved(rows), None)
  {
    hide WriteMany, Roots, Nested;
    var first := WriteMany(rows, Roots(rows), {});
    WrittenIsNested(rows, Roots(rows), {}, None);
    WrittenIsNested(rows, AllRows(|rows|), first.done, None);
    NestedAppend(rows, first.nest, WriteMany(rows, AllRows(|rows|), first.done).nest);
  }

  predicate RowsWritable(rows: seq<Row>) {
    forall i :: 0 <= i < |rows| ==> Writable(rows[i].record)
  }

  lemma {:induction false} ForestWritable(rows: seq<Row>, f: Nest, p: Option<nat>)
    requires RowsWritable(rows) && Nested(rows, f, p)
    ensures AllWritable(ToForest(rows, f))
  {
    hide Writable;
    match f
    case Leaf =>
    case Write(i, _, kids, rest) =>
      ForestWritable(rows, kids, Some(i));
      ForestWritable(rows, rest, p);
  }

  /** A loaded record is the saved one; its parent is the old one, or none for a record at the outermost level. */
  predicate Comes(rows: seq<Row>, i: nat, e: Loaded, tops: seq<nat>) {
    && i < |rows| && e == Restored(rows[i].record, e.parentId)
    && (e.parentId == rows[i].parentId || (e.parentId == -1 && i in tops))
  }

  predicate AllCome(rows: seq<Row>, order: seq<nat>, loaded: seq<Loaded>, tops: seq<nat>) {
    |order| == |loaded| && forall k :: 0 <= k < |order| ==> Comes(rows, order[k], loaded[k], tops)
  }

  lemma ComesWithMore(rows: seq<Row>, order: seq<nat>, loaded: seq<Loaded>, a: seq<nat>, b: seq<nat>)
    requires AllCome(rows, order, loaded, a) && forall x :: x in a ==> x in b
    ensures AllCome(rows, order, loaded, b)
  {
    hide Restored;
    forall k | 0 <= k < |order| ensures Comes(rows, order[k], loaded[k], b) {
      assert Comes(rows, order[k], loaded[k], a);
    }
  }

  lemma ComesAppend(rows: seq<Row>, o1: seq<nat>, l1: seq<Loaded>, o2: seq<nat>, l2: seq<Loaded>, tops: seq<nat>)
    requires AllCome(rows, o1, l1, tops) && AllCome(rows, o2, l2, tops)
    ensures AllCome(rows, o1 + o2, l1 + l2, tops)
  {
    hide Comes;
  }

  lemma {:induction false} PreorderComes(rows: seq<Row>, f: Nest, p: Option<nat>, parentId: int)
    requires Nested(rows, f, p)
    requires p.Some? ==> p.value < |rows| && parentId == rows[p.value].record.id
    requires p.None? ==> parentId == -1
    ensures AllCome(rows, Order(f), Preorder(ToForest(rows, f), parentId), if p.None? then Tops(f) else [])
  {
    hide Restored, AllCome;
    var tops := if p.None? then Tops(f) else [];
    match f
    case Leaf => NoneCome(rows, tops);
    case Write(i, hasList, kids, rest) =>
      PreorderComes(rows, kids, Some(i), rows[i].record.id);
      PreorderComes(rows, rest, p, parentId);
      var a := Preorder(ToForest(rows, kids), rows[i].record.id);
      var b := Preorder(ToForest(rows, rest), parentId);
      var e := Restored(rows[i].record, parentId);
      RestoredParent(rows[i].record, parentId);
      assert Comes(rows, i, e, tops);
      OneComes(rows, i, e, tops);
      ComesWithMore(rows, Order(kids), a, [], tops);
      ComesWithMore(rows, Order(rest), b, if p.None? then Tops(rest) else [], tops);
      ComesAppend(rows, [i], [e], Order(kids), a, tops);
      ComesAppend(rows, [i] + Order(kids), [e] + a, Order(rest), b, tops);
  }

  lemma OneComes(rows: seq<Row>, i: nat, e: Loaded, tops: seq<nat>)
    requires Comes(rows, i, e, tops)
    ensures AllCome(rows, [i], [e], tops)
  {
  }

  lemma NoneCome(rows: seq<Row>, tops: seq<nat>)
    ensures AllCome(rows, [], [], tops)
  {
  }

  lemma RestoredParent(r: Record, parentId: int)
    ensures Restored(r, parentId).parentId == parentId
  {
  }

  function TableText(rows: seq<Row>, header: seq<Item>, footer: seq<Item>): string {
    Render(header + ([Tag(LIST)] + (ListInner(ToForest(rows, Saved(rows)), "  ") + ([Tag("/" + LIST)] + footer))))
  }

  /** Loading what was saved, for any parent links: every record once, in the order it was written, unchanged
      but for its parent, which is kept unless the record had to be written at the outermost level. */
  lemma TableRoundTrip(rows: seq<Row>, header: seq<Item>, footer: seq<Item>)
    requires RowsWritable(rows) && AllClean(header) && AllClean(footer) && Tag(LIST) !in header
    ensures var loaded := LoadEntries(TableText(rows, header, footer));
            var order := Order(Saved(rows));
            && multiset(order) == multiset(Upto(|rows|)) && |loaded| == |order|
            && forall k :: 0 <= k < |order| ==> Comes(rows, order[k], loaded[k], Tops(Saved(rows)))
  {
    hide Saved, ToForest, Order, Tops, Nested, LoadEntries, Upto, ListInner, RowsWritable, AllClean, Comes, Preorder, Render;
    SaveCoversAll(rows);
    SavedIsNested(rows);
    ForestWritable(rows, Saved(rows), None);
    TableReadsBack(header, ToForest(rows, Saved(rows)), footer);
    PreorderComes(rows, Saved(rows), None, -1);
  }

  /** Every parent is none or another record of the table. */
  predicate LinksResolve(rows: seq<Row>) {
    forall i: nat :: i < |rows| ==> rows[i].parentId == -1 || ParentOf(rows, i).Some?
  }

  /** When the parent links form a forest, loading gives the records in depth-first order with every field
      and every parent unchanged. */
  lemma ForestRoundTrip(rows: seq<Row>, rank: seq<nat>, header: seq<Item>, footer: seq<Item>)
    requires RowsWritable(rows) && AllClean(header) && AllClean(footer) && Tag(LIST) !in header
    requires Ranked(rows, rank) && LinksResolve(rows)
    ensures var loaded := LoadEntries(TableText(rows, header, footer));
            var order := Order(Saved(rows));
            && multiset(order) == multiset(Upto(|rows|)) && |loaded| == |order|
            && Tops(Saved(rows)) == Roots(rows) && FullKids(rows, Saved(rows))
            && forall k :: 0 <= k < |order| ==>
                 order[k] < |rows| && loaded[k] == Restored(rows[order[k]].record, rows[order[k]].parentId)
  {
    hide Saved, ToForest, Order, Nested, LoadEntries, Upto, TableText, RowsWritable, AllClean, Ranked, FullKids, Roots;
    TableRoundTrip(rows, header, footer);
    ForestIsDepthFirst(rows, rank);
    var order := Order(Saved(rows));
    var loaded := LoadEntries(TableText(rows, header, footer));
    forall k | 0 <= k < |order|
      ensures order[k] < |rows| && loaded[k] == Restored(rows[order[k]].record, rows[order[k]].parentId)
    {
      assert Comes(rows, order[k], loaded[k], Roots(rows));
    }
  }
}
