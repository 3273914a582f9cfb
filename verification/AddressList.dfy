/** The cheat table's tree kept as a list of indent depths: subtrees, collapse, deletion, grouping, block moves. */
module AddressList {
  import opened Ascents

  /** Row `i` lies in the subtree of row `j`: every row after `j` up to `i` is deeper than `j`. */
  predicate Under(indents: seq<int>, j: nat, i: nat) {
    j < i < |indents| && forall k :: j < k <= i ==> indents[k] > indents[j]
  }

  /** The parent of a row: the nearest earlier row of smaller indent. */
  predicate IsParent(indents: seq<int>, p: nat, i: nat) {
    p < i < |indents| && indents[p] < indents[i] && forall k :: p < k < i ==> indents[k] >= indents[i]
  }

  method DescendantRange(indents: seq<int>, row: nat) returns (begin: nat, end: nat)
    ensures begin == row + 1 && begin <= end
    ensures end <= |indents| || end == begin
    ensures forall i: nat :: begin <= i < end <==> row < |indents| && Under(indents, row, i)
  {
    begin, end := row + 1, row + 1;
    if row >= |indents| {
      return;
    }
    while end < |indents| && indents[end] > indents[row]
      invariant begin <= end <= |indents|
      invariant forall k :: row < k < end ==> indents[k] > indents[row]
    {
      end := end + 1;
    }
  }

  lemma UnderTransitive(indents: seq<int>, a: nat, b: nat, c: nat)
    requires Under(indents, a, b) && Under(indents, b, c)
    ensures Under(indents, a, c)
  {
  }

  lemma ParentIsAbove(indents: seq<int>, p: nat, i: nat)
    requires IsParent(indents, p, i)
    ensures Under(indents, p, i)
  {
  }

  // ----- collapse -----

  predicate CollapsedAbove(indents: seq<int>, collapsed: seq<bool>, j: nat, i: nat) {
    j < |collapsed| && collapsed[j] && Under(indents, j, i)
  }

  predicate Hidden(indents: seq<int>, collapsed: seq<bool>, i: nat) {
    exists j: nat :: j < i && CollapsedAbove(indents, collapsed, j, i)
  }

  /** Row `j` is a collapsed group whose scope has not ended before row `i`. */
  predicate InScope(indents: seq<int>, collapsed: seq<bool>, j: nat, i: nat) {
    j < i <= |indents| && j < |collapsed| && collapsed[j] && forall k :: j < k < i ==> indents[k] > indents[j]
  }

  /** The stack holds the indents of exactly the groups in scope before row `i`, outermost first. */
  ghost predicate StackOf(indents: seq<int>, collapsed: seq<bool>, i: nat, stack: seq<int>, rows: seq<nat>) {
    && |stack| == |rows|
    && (forall a :: 0 <= a < |rows| ==> InScope(indents, collapsed, rows[a], i) && stack[a] == indents[rows[a]])
    && (forall a, b :: 0 <= a < b < |rows| ==> rows[a] < rows[b] && stack[a] < stack[b])
    && (forall j: nat :: InScope(indents, collapsed, j, i) ==> j in rows)
  }

  /** After popping, what is left on the stack are the groups that reach over row `i`. */
  ghost predicate Reaching(indents: seq<int>, collapsed: seq<bool>, i: nat, stack: seq<int>, rows: seq<nat>)
  {
    && i < |indents| && |stack| == |rows|
    && (forall a :: 0 <= a < |rows| ==>
          InScope(indents, collapsed, rows[a], i) && stack[a] == indents[rows[a]] && stack[a] < indents[i])
    && (forall a, b :: 0 <= a < b < |rows| ==> rows[a] < rows[b] && stack[a] < stack[b])
    && (forall j: nat :: InScope(indents, collapsed, j, i) && indents[j] < indents[i] ==> j in rows)
  }

  lemma Kept(stack: seq<int>, d: int)
    requires forall a, b :: 0 <= a < b < |stack| ==> stack[a] < stack[b]
    requires stack == [] || stack[|stack| - 1] < d
    ensures forall a :: 0 <= a < |stack| ==> stack[a] < d
  {
  }

  lemma HiddenIffStack(indents: seq<int>, collapsed: seq<bool>, i: nat, stack: seq<int>, rows: seq<nat>)
    requires Reaching(indents, collapsed, i, stack, rows)
    ensures stack != [] <==> Hidden(indents, collapsed, i)
  {
    if stack != [] {
      assert InScope(indents, collapsed, rows[0], i);
      assert CollapsedAbove(indents, collapsed, rows[0], i);
    }
    if Hidden(indents, collapsed, i) {
      var j: nat :| j < i && CollapsedAbove(indents, collapsed, j, i);
      assert InScope(indents, collapsed, j, i);
    }
  }

  lemma ScopeStep(indents: seq<int>, collapsed: seq<bool>, j: nat, i: nat)
    requires i < |indents|
    ensures InScope(indents, collapsed, j, i + 1)
        <==> ((j == i && i < |collapsed| && collapsed[i]) || (InScope(indents, collapsed, j, i) && indents[j] < indents[i]))
    ensures InScope(indents, collapsed, j, i) ==> j < i
  {
  }

  lemma PushKeepsStack(indents: seq<int>, collapsed: seq<bool>, i: nat, stack: seq<int>, rows: seq<nat>)
    requires Reaching(indents, collapsed, i, stack, rows)
    ensures i < |collapsed| && collapsed[i] ==> StackOf(indents, collapsed, i + 1, stack + [indents[i]], rows + [i])
    ensures !(i < |collapsed| && collapsed[i]) ==> StackOf(indents, collapsed, i + 1, stack, rows)
  {
    hide InScope;
    forall j: nat ensures InScope(indents, collapsed, j, i + 1)
        <==> ((j == i && i < |collapsed| && collapsed[i]) ||
              (j < i && InScope(indents, collapsed, j, i) && indents[j] < indents[i]))
      ensures InScope(indents, collapsed, j, i) ==> j < i {
      ScopeStep(indents, collapsed, j, i);
    }
    assert forall j :: j in rows ==> j in rows + [i];
    assert (rows + [i])[|rows|] == i;
  }

  /** Pop the groups whose scope row `i` ends. */
  method PopEnded(indents: seq<int>, collapsed: seq<bool>, i: nat, stack: seq<int>, ghost rows: seq<nat>)
      returns (left: seq<int>, ghost leftRows: seq<nat>)
    requires i < |indents| && StackOf(indents, collapsed, i, stack, rows)
    ensures Reaching(indents, collapsed, i, left, leftRows)
  {
    hide InScope;
    forall j: nat ensures InScope(indents, collapsed, j, i) ==> j < i {
      ScopeStep(indents, collapsed, j, i);
    }
    left, leftRows := stack, rows;
    while left != [] && left[|left| - 1] >= indents[i]
      invariant |left| == |leftRows|
      invariant forall a :: 0 <= a < |leftRows| ==> leftRows[a] < i && InScope(indents, collapsed, leftRows[a], i) && left[a] == indents[leftRows[a]]
      invariant forall a, b :: 0 <= a < b < |leftRows| ==> leftRows[a] < leftRows[b] && left[a] < left[b]
      invariant forall j: nat :: j < i && InScope(indents, collapsed, j, i) && indents[j] < indents[i] ==> j in leftRows
    {
      ghost var was := leftRows;
      left, leftRows := left[..|left| - 1], leftRows[..|leftRows| - 1];
      assert was == leftRows + [was[|was| - 1]];
    }
    Kept(left, indents[i]);
  }

  method HiddenByCollapse(indents: seq<int>, collapsed: seq<bool>) returns (hidden: array<bool>)
    ensures hidden.Length == |indents|
    ensures forall i :: 0 <= i < |indents| ==> (hidden[i] <==> Hidden(indents, collapsed, i))
  {
    hide StackOf, Reaching, Hidden;
    hidden := new bool[|indents|](_ => false);
    var stack: seq<int> := [];
    ghost var rows: seq<nat> := [];
    EmptyStack(indents, collapsed);
    var i := 0;
    while i < |indents|
      invariant i <= |indents|
      invariant StackOf(indents, collapsed, i, stack, rows)
      invariant forall r :: 0 <= r < i ==> (hidden[r] <==> Hidden(indents, collapsed, r))
    {
      stack, rows := PopEnded(indents, collapsed, i, stack, rows);
      hidden[i] := stack != [];
      HiddenIffStack(indents, collapsed, i, stack, rows);
      PushKeepsStack(indents, collapsed, i, stack, rows);
      if i < |collapsed| && collapsed[i] {
        stack, rows := stack + [indents[i]], rows + [i];
      }
      i := i + 1;
    }
  }

  lemma EmptyStack(indents: seq<int>, collapsed: seq<bool>)
    ensures StackOf(indents, collapsed, 0, [], [])
  {
  }

  // ----- deletion -----

  /** A row goes when it is selected or lies under a selected row. */
  predicate Goes(indents: seq<int>, selected: seq<nat>, i: nat) {
    i < |indents| && exists s :: s in selected && (s == i || Under(indents, s, i))
  }

  method ExpandGroupDeletion(indents: seq<int>, selected: seq<nat>) returns (out: seq<nat>)
    ensures Ascending(out)
    ensures forall i: nat :: i in out <==> Goes(indents, selected, i)
  {
    var mark := new bool[|indents|](_ => false);
    var n := 0;
    while n < |selected|
      invariant n <= |selected|
      invariant forall i: nat :: i < |indents| ==> (mark[i] <==> Goes(indents, selected[..n], i))
    {
      var r := selected[n];
      assert selected[..n + 1] == selected[..n] + [r];
      if r < |indents| {
        ghost var was := mark[..];
        mark[r] := true;
        var begin, end := DescendantRange(indents, r);
        var i := begin;
        while i < end
          invariant begin <= i <= end <= |indents|
          invariant forall k: nat :: k < |indents| ==> (mark[k] <==> was[k] || k == r || begin <= k < i)
        {
          mark[i] := true;
          i := i + 1;
        }
      }
      forall i: nat | i < |indents| ensures mark[i] <==> Goes(indents, selected[..n + 1], i) {
        GoesStep(indents, selected[..n], r, i);
      }
      n := n + 1;
    }
    assert selected[..|selected|] == selected;
    out := [];
    var i: nat := 0;
    while i < mark.Length
      invariant i <= mark.Length && Ascending(out)
      invariant forall k: nat :: k < |indents| ==> (mark[k] <==> Goes(indents, selected, k))
      invariant forall k: nat :: k in out <==> k < i && mark[k]
    {
      if mark[i] {
        AscendingAppend(out, i);
        out := out + [i];
      }
      i := i + 1;
    }
  }

  lemma GoesStep(indents: seq<int>, before: seq<nat>, r: nat, i: nat)
    requires i < |indents|
    ensures Goes(indents, before + [r], i) <==> Goes(indents, before, i) || i == r || (r < |indents| && Under(indents, r, i))
  {
    var after := before + [r];
    assert after[|before|] == r && r in after;
    if Goes(indents, before, i) {
      var s :| s in before && (s == i || Under(indents, s, i));
      assert s in after;
    }
  }

  /** What goes takes its whole subtree along. */
  lemma DeletionIsClosed(indents: seq<int>, selected: seq<nat>, i: nat, j: nat)
    requires Goes(indents, selected, i) && Under(indents, i, j)
    ensures Goes(indents, selected, j)
  {
    var s :| s in selected && (s == i || Under(indents, s, i));
    if s != i {
      UnderTransitive(indents, s, i, j);
    }
  }

  /** The rows that stay, in order. */
  function Staying(indents: seq<int>, gone: seq<nat>, n: nat): (rows: seq<nat>)
    requires n <= |indents|
    ensures Ascending(rows)
    ensures forall i: nat :: i in rows <==> i < n && i !in gone
  {
    if n == 0 then []
    else
      var before := Staying(indents, gone, n - 1);
      AscendingAppend(before, n - 1);
      if n - 1 in gone then before else before + [n - 1]
  }

  function Compacted(indents: seq<int>, rows: seq<nat>): (r: seq<int>)
    requires forall k :: 0 <= k < |rows| ==> rows[k] < |indents|
    ensures |r| == |rows| && forall k :: 0 <= k < |rows| ==> r[k] == indents[rows[k]]
  {
    seq(|rows|, k requires 0 <= k < |rows| => indents[rows[k]])
  }

  /** A row that stays keeps its parent: the parent stays too. */
  lemma ParentStays(indents: seq<int>, selected: seq<nat>, p: nat, i: nat)
    requires IsParent(indents, p, i) && !Goes(indents, selected, i)
    ensures !Goes(indents, selected, p)
  {
    ParentIsAbove(indents, p, i);
    if Goes(indents, selected, p) {
      DeletionIsClosed(indents, selected, p, i);
    }
  }

  /** Deletion keeps the tree: in the compacted list every surviving row has the same parent as before. */
  lemma DeletionKeepsParents(indents: seq<int>, selected: seq<nat>, gone: seq<nat>, a: nat, b: nat)
    requires forall i: nat :: i in gone <==> Goes(indents, selected, i)
    ensures var rows := Staying(indents, gone, |indents|);
            assert forall k :: 0 <= k < |rows| ==> rows[k] in rows;
            a < |rows| && b < |rows| ==>
              (IsParent(Compacted(indents, rows), a, b) <==> IsParent(indents, rows[a], rows[b]))
  {
    var rows := Staying(indents, gone, |indents|);
    assert forall k :: 0 <= k < |rows| ==> rows[k] in rows;
    if a < b < |rows| {
      var c := Compacted(indents, rows);
      assert rows[a] in rows && rows[b] in rows;
      if IsParent(c, a, b) {
        NearestStaysNearest(indents, selected, rows, a, b);
      }
      if IsParent(indents, rows[a], rows[b]) {
        forall k | a < k < b ensures c[k] >= c[b] {
          assert rows[k] in rows && rows[a] < rows[k] < rows[b];
        }
      }
    }
  }

  lemma InOrder(rows: seq<nat>, a: nat, b: nat)
    requires Ascending(rows) && a < |rows| && b < |rows|
    ensures a <= b ==> rows[a] <= rows[b]
  {
  }

  lemma SurvivorBetween(rows: seq<nat>, a: nat, b: nat, q: nat)
    requires Ascending(rows) && a < b < |rows| && q in rows && rows[a] < q < rows[b]
    ensures exists k :: a < k < b && rows[k] == q
  {
    var k :| 0 <= k < |rows| && rows[k] == q;
    InOrder(rows, k, a);
    InOrder(rows, b, k);
  }

  /** The nearest earlier survivor of smaller indent was the nearest earlier row of smaller indent. */
  lemma NearestStaysNearest(indents: seq<int>, selected: seq<nat>, rows: seq<nat>, a: nat, b: nat)
    requires Ascending(rows) && forall i: nat :: i in rows <==> i < |indents| && !Goes(indents, selected, i)
    requires forall k :: 0 <= k < |rows| ==> rows[k] < |indents|
    requires a < b < |rows| && IsParent(Compacted(indents, rows), a, b)
    ensures IsParent(indents, rows[a], rows[b])
  {
    assert rows[a] in rows && rows[b] in rows;
    var q := Nearest(indents, rows[b], rows[b], rows[a]);
    if q != rows[a] {
      ParentStays(indents, selected, q, rows[b]);
      SurvivorBetween(rows, a, b, q);
    }
  }

  /** The parent of row `i`, searched downwards from `n`, when some row `low` is shallower. */
  function Nearest(indents: seq<int>, i: nat, n: nat, low: nat): (p: nat)
    requires i < |indents| && low < n <= i && indents[low] < indents[i]
    requires forall k :: n <= k < i ==> indents[k] >= indents[i]
    ensures low <= p && IsParent(indents, p, i)
  {
    if indents[n - 1] < indents[i] then n - 1 else Nearest(indents, i, n - 1, low)
  }
}
