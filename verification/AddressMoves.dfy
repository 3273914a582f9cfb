/** Dragging a block of rows and wrapping a selection in a new group, as permutations of the table. */
module AddressMoves {
  import opened AddressList
  import opened Ascents

  // ----- moving a block -----

  predicate ValidMove(count: int, start: int, len: int) {
    0 < len && 0 <= start && start + len <= count
  }

  /** Where the block lands among the other rows. */
  function InsertPos(count: nat, start: nat, len: nat, dest: int): (p: nat)
    requires ValidMove(count, start, len)
    ensures p + len <= count
  {
    if dest <= 0 then 0
    else if dest <= start then dest
    else if dest <= start + len then start
    else if dest <= count then dest - len
    else count - len
  }

  /** The `k`-th row outside the block. */
  function Outside(start: nat, len: nat, k: nat): nat {
    if k < start then k else k + len
  }

  /** The row that ends up at position `k`. */
  function OldIndex(count: nat, start: nat, len: nat, dest: int, k: nat): (i: nat)
    requires ValidMove(count, start, len) && k < count
    ensures i < count
  {
    var p := InsertPos(count, start, len, dest);
    if k < p then Outside(start, len, k)
    else if k < p + len then start + (k - p)
    else Outside(start, len, k - len)
  }

  /** The position row `i` ends up at. */
  function NewIndex(count: nat, start: nat, len: nat, dest: int, i: nat): (k: nat)
    requires ValidMove(count, start, len) && i < count
    ensures k < count
  {
    var p := InsertPos(count, start, len, dest);
    if start <= i < start + len then p + (i - start)
    else
      var r := if i < start then i else i - len;
      if r < p then r else r + len
  }

  method Identity(count: int) returns (perm: seq<int>)
    ensures |perm| == if count <= 0 then 0 else count
    ensures forall k :: 0 <= k < |perm| ==> perm[k] == k
  {
    perm := [];
    var i := 0;
    while i < count
      invariant 0 <= i && |perm| == i && (i <= count || i == 0)
      invariant forall k :: 0 <= k < i ==> perm[k] == k
    {
      perm := perm + [i];
      i := i + 1;
    }
  }

  /** The rows outside the block, in order. */
  method RestRows(count: int, start: int, len: int) returns (rest: seq<int>)
    requires ValidMove(count, start, len)
    ensures |rest| == count - len
    ensures forall k :: 0 <= k < |rest| ==> rest[k] == Outside(start, len, k)
  {
    rest := [];
    var i := 0;
    while i < count
      invariant 0 <= i <= count
      invariant |rest| == if i <= start then i else if i <= start + len then start else i - len
      invariant forall k :: 0 <= k < |rest| ==> rest[k] == Outside(start, len, k)
    {
      if i < start || i >= start + len {
        rest := rest + [i];
      }
      i := i + 1;
    }
  }

  method MoveRangePermutation(count: int, start: int, len: int, dest: int) returns (perm: seq<int>)
    ensures |perm| == if count <= 0 then 0 else count
    ensures !ValidMove(count, start, len) ==> forall k :: 0 <= k < |perm| ==> perm[k] == k
    ensures ValidMove(count, start, len) ==> forall k :: 0 <= k < count ==> perm[k] == OldIndex(count, start, len, dest, k)
  {
    if count <= 0 || len <= 0 || start < 0 || start + len > count {
      perm := Identity(count);
      return;
    }
    var rest := RestRows(count, start, len);
    var insertPos := 0;
    while insertPos < |rest| && rest[insertPos] < dest
      invariant 0 <= insertPos <= |rest|
      invariant insertPos > 0 ==> rest[insertPos - 1] < dest
    {
      insertPos := insertPos + 1;
    }
    InsertsThere(count, start, len, dest, insertPos, rest);
    perm := rest[..insertPos] + seq(len, k => start + k) + rest[insertPos..];
  }

  lemma InsertsThere(count: nat, start: nat, len: nat, dest: int, p: nat, rest: seq<int>)
    requires ValidMove(count, start, len) && |rest| == count - len && p <= |rest|
    requires forall k :: 0 <= k < |rest| ==> rest[k] == Outside(start, len, k)
    requires p > 0 ==> rest[p - 1] < dest
    requires p < |rest| ==> rest[p] >= dest
    ensures p == InsertPos(count, start, len, dest)
  {
  }

  /** The plan is a permutation: every row lands in one place and every place gets one row. */
  lemma MoveIsPermutation(count: nat, start: nat, len: nat, dest: int, k: nat)
    requires ValidMove(count, start, len) && k < count
    ensures OldIndex(count, start, len, dest, NewIndex(count, start, len, dest, k)) == k
    ensures NewIndex(count, start, len, dest, OldIndex(count, start, len, dest, k)) == k
  {
    var old_ := OldIndex(count, start, len, dest, k);
    assert NewIndex(count, start, len, dest, old_) == k;
  }

  /** The block lands in one piece right before the row that was at `dest`; the others keep their order. */
  lemma MoveMeaning(count: nat, start: nat, len: nat, dest: nat, a: nat, b: nat)
    requires ValidMove(count, start, len) && a < b < count
    ensures start <= a && b < start + len ==>
      NewIndex(count, start, len, dest, b) - NewIndex(count, start, len, dest, a) == b - a
    ensures !(start <= a < start + len) && !(start <= b < start + len) ==>
      NewIndex(count, start, len, dest, a) < NewIndex(count, start, len, dest, b)
    ensures dest < count && !(start <= dest < start + len) ==>
      NewIndex(count, start, len, dest, start) + len == NewIndex(count, start, len, dest, dest)
  {
  }

  /** Nothing moves exactly when the drop is inside or next to the block, or past an end it already touches. */
  lemma MoveIsIdentityIff(count: nat, start: nat, len: nat, dest: int)
    requires ValidMove(count, start, len)
    ensures (forall k: nat :: k < count ==> OldIndex(count, start, len, dest, k) == k)
       <==> (start <= dest <= start + len || (start == 0 && dest < 0) || (start + len == count && dest > count))
  {
    var p := InsertPos(count, start, len, dest);
    if p != start {
      assert OldIndex(count, start, len, dest, p) == start;
    } else {
      assert forall k: nat :: k < count ==> OldIndex(count, start, len, dest, k) == k;
    }
  }

  /** Dragging the block back undoes the move. */
  lemma MoveBackUndoes(count: nat, start: nat, len: nat, dest: nat, k: nat)
    requires ValidMove(count, start, len) && dest <= count && k < count
    ensures var landed := InsertPos(count, start, len, dest);
            var back := if landed < start then start + len else start;
            OldIndex(count, start, len, dest, OldIndex(count, landed, len, back, k)) == k
  {
  }

  function Rearranged(indents: seq<int>, start: nat, len: nat, dest: int): (r: seq<int>)
    requires ValidMove(|indents|, start, len)
    ensures |r| == |indents|
  {
    seq(|indents|, k requires 0 <= k < |indents| => indents[OldIndex(|indents|, start, len, dest, k)])
  }

  /** Parents are the same inside two stretches that hold the same depths. */
  lemma ShiftedParents(r: seq<int>, s: seq<int>, lo: nat, hi: nat, dst: nat, a: nat, b: nat)
    requires lo <= hi <= |s| && dst + (hi - lo) <= |r|
    requires forall i :: lo <= i < hi ==> r[dst + (i - lo)] == s[i]
    requires lo <= a < hi && lo <= b < hi && IsParent(s, a, b)
    ensures IsParent(r, dst + (a - lo), dst + (b - lo))
  {
    forall k | dst + (a - lo) < k < dst + (b - lo) ensures r[k] >= r[dst + (b - lo)] {
      assert r[dst + ((k - dst + lo) - lo)] == s[k - dst + lo];
    }
  }

  lemma BlockPlace(indents: seq<int>, start: nat, len: nat, dest: int, i: nat)
    requires ValidMove(|indents|, start, len) && start <= i < start + len
    ensures NewIndex(|indents|, start, len, dest, i) == InsertPos(|indents|, start, len, dest) + (i - start)
    ensures Rearranged(indents, start, len, dest)[InsertPos(|indents|, start, len, dest) + (i - start)] == indents[i]
  {
    MoveIsPermutation(|indents|, start, len, dest, i);
  }

  /** Dragging a header with its subtree keeps every parent inside the subtree. */
  lemma MovedSubtreeKeepsParents(indents: seq<int>, start: nat, len: nat, dest: int, a: nat, b: nat)
    requires ValidMove(|indents|, start, len)
    requires start <= a < start + len && start <= b < start + len
    ensures IsParent(Rearranged(indents, start, len, dest),
                     NewIndex(|indents|, start, len, dest, a), NewIndex(|indents|, start, len, dest, b))
       <==> IsParent(indents, a, b)
  {
    hide IsParent, OldIndex, NewIndex, InsertPos, Rearranged;
    var r := Rearranged(indents, start, len, dest);
    var p := InsertPos(|indents|, start, len, dest);
    forall i | start <= i < start + len ensures r[p + (i - start)] == indents[i] {
      BlockPlace(indents, start, len, dest, i);
    }
    BlockPlace(indents, start, len, dest, a);
    BlockPlace(indents, start, len, dest, b);
    if IsParent(indents, a, b) {
      ShiftedParents(r, indents, start, start + len, p, a, b);
    }
    if IsParent(r, p + (a - start), p + (b - start)) {
      forall k | p <= k < p + len ensures indents[start + (k - p)] == r[k] {
        assert r[p + ((k - p + start) - start)] == indents[k - p + start];
      }
      ShiftedParents(indents, r, p, p + len, start, p + (a - start), p + (b - start));
    }
  }

  // ----- grouping a selection -----

  /** The selected rows that exist, ascending and without repetition. */
  function Chosen(selected: seq<nat>, n: nat): (rows: seq<nat>)
    ensures Ascending(rows)
    ensures forall i: nat :: i in rows <==> i < n && i in selected
  {
    if n == 0 then []
    else
      var before := Chosen(selected, n - 1);
      AscendingAppend(before, n - 1);
      if n - 1 in selected then before + [n - 1] else before
  }

  /** The other rows from `i` on. */
  function Others(selected: seq<nat>, i: nat, n: nat): (rows: seq<nat>)
    requires i <= n
    ensures forall k: nat :: k in rows <==> i <= k < n && k !in selected
    ensures Ascending(rows)
    decreases n
  {
    if i == n then []
    else
      var before := Others(selected, i, n - 1);
      AscendingAppend(before, n - 1);
      if n - 1 in selected then before else before + [n - 1]
  }

  datatype Plan = Plan(order: seq<int>, indent: seq<int>)

  function Shallowest(indents: seq<int>, rows: seq<nat>): (m: int)
    requires rows != [] && forall k :: 0 <= k < |rows| ==> rows[k] < |indents|
    ensures forall k :: 0 <= k < |rows| ==> m <= indents[rows[k]]
    ensures exists k :: 0 <= k < |rows| && m == indents[rows[k]]
  {
    var last := indents[rows[|rows| - 1]];
    if |rows| == 1 then last
    else
      var m := Shallowest(indents, rows[..|rows| - 1]);
      if last < m then last else m
  }

  /** The first `n` rows. */
  function Rows(n: nat): (r: seq<int>)
    ensures |r| == n && forall k :: 0 <= k < n ==> r[k] == k
  {
    seq(n, k => k)
  }

  function Numbers(rows: seq<nat>): (r: seq<int>)
    ensures |r| == |rows| && forall k :: 0 <= k < |rows| ==> r[k] == rows[k]
  {
    seq(|rows|, k requires 0 <= k < |rows| => rows[k] as int)
  }

  function Deeper(s: seq<int>): (r: seq<int>)
    ensures |r| == |s| && forall k :: 0 <= k < |s| ==> r[k] == s[k] + 1
  {
    seq(|s|, k requires 0 <= k < |s| => s[k] + 1)
  }

  lemma ChosenExist(selected: seq<nat>, n: nat)
    ensures forall k :: 0 <= k < |Chosen(selected, n)| ==> Chosen(selected, n)[k] < n
  {
    assert forall k :: 0 <= k < |Chosen(selected, n)| ==> Chosen(selected, n)[k] in Chosen(selected, n);
  }

  lemma OthersExist(selected: seq<nat>, i: nat, n: nat)
    requires i <= n
    ensures forall k :: 0 <= k < |Others(selected, i, n)| ==> i <= Others(selected, i, n)[k] < n
  {
    assert forall k :: 0 <= k < |Others(selected, i, n)| ==> Others(selected, i, n)[k] in Others(selected, i, n);
  }

  /** The plan with the rows before `n` placed: those before the first selected one, the header, the
      selected rows one level deeper, the other rows. */
  function GroupedTo(indents: seq<int>, selected: seq<nat>, n: nat): (p: Plan)
    requires Chosen(selected, |indents|) != [] && Chosen(selected, |indents|)[0] < n <= |indents|
  {
    ChosenExist(selected, |indents|);
    var members := Chosen(selected, |indents|);
    var first := members[0];
    OthersExist(selected, first, n);
    var others := Others(selected, first, n);
    Plan(Rows(first) + [-1] + Numbers(members) + Numbers(others),
         indents[..first] + [Shallowest(indents, members)] + Deeper(Compacted(indents, members)) + Compacted(indents, others))
  }

  function Grouped(indents: seq<int>, selected: seq<nat>): Plan
    requires Chosen(selected, |indents|) != []
  {
    ChosenExist(selected, |indents|);
    GroupedTo(indents, selected, |indents|)
  }

  lemma OthersStep(selected: seq<nat>, first: nat, i: nat)
    requires first <= i
    ensures Others(selected, first, i + 1) == if i in selected then Others(selected, first, i) else Others(selected, first, i) + [i]
  {
  }

  lemma OthersNone(selected: seq<nat>, first: nat)
    ensures Others(selected, first, first) == []
  {
  }

  method MinIndent(indents: seq<int>, members: seq<nat>) returns (minSel: int)
    requires members != [] && forall k :: 0 <= k < |members| ==> members[k] < |indents|
    ensures minSel == Shallowest(indents, members)
  {
    minSel := indents[members[0]];
    var k := 0;
    while k < |members|
      invariant 0 <= k <= |members|
      invariant minSel == Shallowest(indents, members[..if k == 0 then 1 else k])
    {
      minSel := if indents[members[k]] < minSel then indents[members[k]] else minSel;
      assert members[..k + 1][..k] == members[..k];
      k := k + 1;
    }
    assert members[..|members|] == members;
  }

  method MarkMembers(members: seq<nat>, n: nat) returns (isSel: array<bool>)
    requires forall k :: 0 <= k < |members| ==> members[k] < n
    ensures fresh(isSel) && isSel.Length == n
    ensures forall i: nat :: i < n ==> (isSel[i] <==> i in members)
  {
    isSel := new bool[n](_ => false);
    var k := 0;
    while k < |members|
      invariant 0 <= k <= |members|
      invariant forall i: nat :: i < n ==> (isSel[i] <==> i in members[..k])
    {
      isSel[members[k]] := true;
      assert members[..k + 1] == members[..k] + [members[k]];
      k := k + 1;
    }
    assert members[..|members|] == members;
  }

  /** The header and the members after it. */
  method PlaceMembers(indents: seq<int>, members: seq<nat>, minSel: int) returns (order: seq<int>, indent: seq<int>)
    requires forall k :: 0 <= k < |members| ==> members[k] < |indents|
    ensures order == [-1] + Numbers(members) && indent == [minSel] + Deeper(Compacted(indents, members))
  {
    order, indent := [-1], [minSel];
    var k := 0;
    while k < |members|
      invariant 0 <= k <= |members|
      invariant order == [-1] + Numbers(members[..k])
      invariant indent == [minSel] + Deeper(Compacted(indents, members[..k]))
    {
      order, indent := order + [members[k]], indent + [indents[members[k]] + 1];
      assert Numbers(members[..k + 1]) == Numbers(members[..k]) + [members[k]];
      assert Deeper(Compacted(indents, members[..k + 1])) == Deeper(Compacted(indents, members[..k])) + [indents[members[k]] + 1];
      k := k + 1;
    }
    assert members[..|members|] == members;
  }

  lemma AppendRow(indents: seq<int>, rows: seq<nat>, i: nat)
    requires i < |indents| && forall k :: 0 <= k < |rows| ==> rows[k] < |indents|
    ensures Numbers(rows + [i]) == Numbers(rows) + [i as int]
    ensures Compacted(indents, rows + [i]) == Compacted(indents, rows) + [indents[i]]
  {
  }

  lemma OthersPlaced(indents: seq<int>, selected: seq<nat>, i: nat)
    requires Chosen(selected, |indents|) != [] && Chosen(selected, |indents|)[0] < i < |indents|
    ensures i in selected ==> GroupedTo(indents, selected, i + 1) == GroupedTo(indents, selected, i)
    ensures i !in selected ==>
      GroupedTo(indents, selected, i + 1)
      == Plan(GroupedTo(indents, selected, i).order + [i], GroupedTo(indents, selected, i).indent + [indents[i]])
  {
    hide Chosen, Others, Shallowest, Ascending, Numbers, Compacted, Deeper, Rows;
    var first := Chosen(selected, |indents|)[0];
    OthersStep(selected, first, i);
    OthersExist(selected, first, i);
    OthersExist(selected, first, i + 1);
    if i !in selected {
      AppendRow(indents, Others(selected, first, i), i);
    }
  }

  lemma MembersPlaced(indents: seq<int>, selected: seq<nat>)
    requires Chosen(selected, |indents|) != []
    ensures var members := Chosen(selected, |indents|);
            members[0] in selected && members[0] < |indents| &&
            (forall k :: 0 <= k < |members| ==> members[k] < |indents|) &&
            GroupedTo(indents, selected, members[0] + 1)
            == Plan(Rows(members[0]) + ([-1] + Numbers(members)),
                    indents[..members[0]] + ([Shallowest(indents, members)] + Deeper(Compacted(indents, members))))
  {
    hide Shallowest;
    ChosenExist(selected, |indents|);
    var members := Chosen(selected, |indents|);
    assert members[0] in members;
    OthersStep(selected, members[0], members[0]);
    OthersNone(selected, members[0]);
    assert Numbers([]) == [] && Compacted(indents, []) == [];
  }

  method GroupSelection(indents: seq<int>, selected: seq<nat>) returns (ok: bool, order: seq<int>, indent: seq<int>)
    ensures ok <==> Chosen(selected, |indents|) != []
    ensures ok ==> Plan(order, indent) == Grouped(indents, selected)
    ensures !ok ==> order == [] && indent == []
  {
    hide Chosen, Others, GroupedTo, Shallowest, Ascending;
    var members := Chosen(selected, |indents|);
    order, indent := [], [];
    if members == [] {
      return false, [], [];
    }
    MembersPlaced(indents, selected);
    var insertAt := members[0];
    var minSel := MinIndent(indents, members);
    var isSel := MarkMembers(members, |indents|);
    var i: nat := 0;
    while i < |indents|
      invariant i <= |indents|
      invariant forall k: nat :: k < |indents| ==> (isSel[k] <==> k in selected)
      invariant i <= insertAt ==> order == Rows(i) && indent == indents[..i]
      invariant i > insertAt ==> Plan(order, indent) == GroupedTo(indents, selected, i)
    {
      if i == insertAt {
        var o, d := PlaceMembers(indents, members, minSel);
        order, indent := order + o, indent + d;
      } else if i > insertAt {
        OthersPlaced(indents, selected, i);
      } else {
        BeforeFirst(selected, |indents|, i);
      }
      if !isSel[i] {
        order, indent := order + [i], indent + [indents[i]];
      }
      i := i + 1;
    }
    ok := true;
  }

  lemma BeforeFirst(selected: seq<nat>, n: nat, i: nat)
    requires Chosen(selected, n) != [] && i < Chosen(selected, n)[0] && i < n
    ensures i !in selected
  {
    if i in selected {
      var k :| 0 <= k < |Chosen(selected, n)| && Chosen(selected, n)[k] == i;
      InOrder(Chosen(selected, n), 0, k);
    }
  }

  // ----- what grouping keeps -----

  lemma ChosenStep(selected: seq<nat>, i: nat)
    ensures Chosen(selected, i + 1) == if i in selected then Chosen(selected, i) + [i] else Chosen(selected, i)
  {
  }

  lemma {:induction false} ChosenAndOthersCount(selected: seq<nat>, first: nat, n: nat)
    requires first <= n && forall i: nat :: i < first ==> i !in selected
    ensures |Chosen(selected, n)| + |Others(selected, first, n)| == n - first
  {
    hide Chosen, Others, Ascending;
    if n > first {
      ChosenAndOthersCount(selected, first, n - 1);
      ChosenStep(selected, n - 1);
      OthersStep(selected, first, n - 1);
    } else {
      NoneChosen(selected, n);
      OthersNone(selected, first);
    }
  }

  lemma {:induction false} NoneChosen(selected: seq<nat>, n: nat)
    requires forall i: nat :: i < n ==> i !in selected
    ensures Chosen(selected, n) == []
  {
    if n > 0 {
      NoneChosen(selected, n - 1);
    }
  }

  lemma FourPieces(pre: seq<int>, x: int, mid: seq<int>, post: seq<int>)
    ensures var s := pre + [x] + mid + post;
            && |s| == |pre| + 1 + |mid| + |post|
            && forall k :: 0 <= k < |s| ==>
                 s[k] == if k < |pre| then pre[k] else if k == |pre| then x
                         else if k < |pre| + 1 + |mid| then mid[k - |pre| - 1] else post[k - |pre| - 1 - |mid|]
  {
  }

  /** The new list: its length, the depth of the header, and the depths of the members. */
  lemma MemberDepths(indents: seq<int>, selected: seq<nat>)
    requires Chosen(selected, |indents|) != []
    ensures var members := Chosen(selected, |indents|);
            var indent := Grouped(indents, selected).indent;
            && Ascending(members)
            && (forall k :: 0 <= k < |members| ==> members[k] < |indents|)
            && members[0] + 1 + |members| <= |indent|
            && (forall k :: 0 <= k < |members| ==> indent[members[0] + 1 + k] == Compacted(indents, members)[k] + 1)
            && (forall k :: 0 <= k < |members| ==> indent[members[0]] <= Compacted(indents, members)[k])
  {
    hide *;
    ChosenExist(selected, |indents|);
    var members := Chosen(selected, |indents|);
    GroupedIndent(indents, selected);
    OthersExist(selected, members[0], |indents|);
    var depths := Compacted(indents, members);
    var m := Shallowest(indents, members);
    HeadDepths(indents[..members[0]], m, depths, Compacted(indents, Others(selected, members[0], |indents|)));
    forall k | 0 <= k < |members| ensures m <= depths[k] {
      assert depths[k] == indents[members[k]];
    }
  }

  lemma GroupedIndent(indents: seq<int>, selected: seq<nat>)
    requires Chosen(selected, |indents|) != []
    ensures var members := Chosen(selected, |indents|);
            (forall k :: 0 <= k < |members| ==> members[k] < |indents|) &&
            (forall k :: 0 <= k < |Others(selected, members[0], |indents|)| ==> Others(selected, members[0], |indents|)[k] < |indents|) &&
            Grouped(indents, selected).indent
            == indents[..members[0]] + [Shallowest(indents, members)] + Deeper(Compacted(indents, members))
               + Compacted(indents, Others(selected, members[0], |indents|))
  {
    hide Chosen, Others, Shallowest, Ascending, Compacted, Deeper;
    ChosenExist(selected, |indents|);
    OthersExist(selected, Chosen(selected, |indents|)[0], |indents|);
  }

  lemma HeadDepths(pre: seq<int>, m: int, depths: seq<int>, post: seq<int>)
    ensures var indent := pre + [m] + Deeper(depths) + post;
            && |indent| == |pre| + 1 + |depths| + |post| && indent[|pre|] == m
            && forall k :: 0 <= k < |depths| ==> indent[|pre| + 1 + k] == depths[k] + 1
  {
    FourPieces(pre, m, Deeper(depths), post);
    var indent := pre + [m] + Deeper(depths) + post;
    forall k | 0 <= k < |depths| ensures indent[|pre| + 1 + k] == depths[k] + 1 {
      assert indent[|pre| + 1 + k] == Deeper(depths)[k];
    }
  }

  /** Depths of a header and of what follows it. */
  lemma FollowersAreUnder(indent: seq<int>, h: nat, depths: seq<int>)
    requires h + 1 + |depths| <= |indent|
    requires forall k :: 0 <= k < |depths| ==> indent[h + 1 + k] == depths[k] + 1 && indent[h] <= depths[k]
    ensures forall j :: h < j < h + 1 + |depths| ==> Under(indent, h, j)
  {
    forall j | h < j < h + 1 + |depths| ensures indent[j] > indent[h] {
      assert indent[h + 1 + (j - h - 1)] == depths[j - h - 1] + 1;
    }
  }

  /** The new list has the header and every old row, and nothing twice. */
  lemma GroupingKeepsRows(indents: seq<int>, selected: seq<nat>)
    requires Chosen(selected, |indents|) != []
    ensures var order := Grouped(indents, selected).order;
            && |order| == |indents| + 1
            && (forall x, y :: 0 <= x < y < |order| ==> order[x] != order[y])
            && (forall x :: 0 <= x < |order| ==> -1 <= order[x] < |indents|)
  {
    hide Chosen, Others, Shallowest;
    var n := |indents|;
    var members := Chosen(selected, n);
    var first := members[0];
    ChosenExist(selected, n);
    OthersExist(selected, first, n);
    forall i: nat | i < first ensures i !in selected {
      BeforeFirst(selected, n, i);
    }
    ChosenAndOthersCount(selected, first, n);
    var others := Others(selected, first, n);
    forall a, b | 0 <= a < |members| && 0 <= b < |others| ensures members[a] != others[b] {
      assert members[a] in members && others[b] in others;
    }
    forall k | 0 <= k < |members| ensures first <= members[k] {
      InOrder(members, 0, k);
    }
    NothingTwice(first, members, others, n);
  }

  lemma NothingTwice(first: nat, members: seq<nat>, others: seq<nat>, n: nat)
    requires first <= n && Ascending(members) && Ascending(others)
    requires forall k :: 0 <= k < |members| ==> first <= members[k] < n
    requires forall k :: 0 <= k < |others| ==> first <= others[k] < n
    requires forall a, b :: 0 <= a < |members| && 0 <= b < |others| ==> members[a] != others[b]
    ensures var order := Rows(first) + [-1] + Numbers(members) + Numbers(others);
            && (forall x, y :: 0 <= x < y < |order| ==> order[x] != order[y])
            && (forall x :: 0 <= x < |order| ==> -1 <= order[x] < n)
  {
    hide Numbers;
    var pre: seq<int> := Rows(first);
    FourPieces(pre, -1, Numbers(members), Numbers(others));
    var order := pre + [-1] + Numbers(members) + Numbers(others);
    forall x | 0 <= x < |order| ensures order[x] == RowAt(first, members, others, x) {
    }
    forall x, y | 0 <= x < y < |order| ensures order[x] != order[y] {
      RowsDiffer(first, members, others, x, y);
    }
  }

  function RowAt(first: nat, members: seq<nat>, others: seq<nat>, x: nat): int
    requires x < first + 1 + |members| + |others|
  {
    if x < first then x
    else if x == first then -1
    else if x < first + 1 + |members| then members[x - first - 1]
    else others[x - first - 1 - |members|]
  }

  lemma RowsDiffer(first: nat, members: seq<nat>, others: seq<nat>, x: nat, y: nat)
    requires Ascending(members) && Ascending(others)
    requires forall k :: 0 <= k < |members| ==> first <= members[k]
    requires forall k :: 0 <= k < |others| ==> first <= others[k]
    requires forall a, b :: 0 <= a < |members| && 0 <= b < |others| ==> members[a] != others[b]
    requires x < y < first + 1 + |members| + |others|
    ensures RowAt(first, members, others, x) != RowAt(first, members, others, y)
  {
  }

  /** Every selected row is under the new header, and parents among the selected rows are those of the
      selection by itself; so a selected child of a selected parent stays its child. */
  lemma MembersUnderHeader(indents: seq<int>, selected: seq<nat>, a: nat, b: nat)
    requires Chosen(selected, |indents|) != []
    requires a < |Chosen(selected, |indents|)| && b < |Chosen(selected, |indents|)|
    ensures forall k :: 0 <= k < |Chosen(selected, |indents|)| ==> Chosen(selected, |indents|)[k] < |indents|
    ensures var members := Chosen(selected, |indents|);
            var indent := Grouped(indents, selected).indent;
            var h := members[0];
            && Under(indent, h, h + 1 + a)
            && (IsParent(indent, h + 1 + a, h + 1 + b) <==> IsParent(Compacted(indents, members), a, b))
            && (IsParent(indents, members[a], members[b]) ==> IsParent(indent, h + 1 + a, h + 1 + b))
  {
    hide Chosen, Grouped, IsParent, Under, Ascending;
    MemberDepths(indents, selected);
    var members := Chosen(selected, |indents|);
    var indent := Grouped(indents, selected).indent;
    if IsParent(indents, members[a], members[b]) {
      ParentAmongChosen(indents, members, a, b);
    }
    DeeperParents(indent, Compacted(indents, members), members[0] + 1, a, b);
    FollowersAreUnder(indent, members[0], Compacted(indents, members));
  }

  lemma ParentAmongChosen(indents: seq<int>, rows: seq<nat>, a: nat, b: nat)
    requires Ascending(rows) && forall k :: 0 <= k < |rows| ==> rows[k] < |indents|
    requires a < |rows| && b < |rows| && IsParent(indents, rows[a], rows[b])
    ensures IsParent(Compacted(indents, rows), a, b)
  {
    InOrder(rows, b, a);
    forall k | a < k < b ensures Compacted(indents, rows)[k] >= Compacted(indents, rows)[b] {
      assert rows[a] < rows[k] < rows[b];
    }
  }

  lemma DeeperParents(r: seq<int>, c: seq<int>, at: nat, a: nat, b: nat)
    requires at + |c| <= |r| && forall k :: 0 <= k < |c| ==> r[at + k] == c[k] + 1
    requires a < |c| && b < |c|
    ensures IsParent(r, at + a, at + b) <==> IsParent(c, a, b)
  {
    if IsParent(r, at + a, at + b) {
      forall k | a < k < b ensures c[k] >= c[b] {
        assert r[at + k] == c[k] + 1;
      }
    }
    if IsParent(c, a, b) {
      forall k | at + a < k < at + b ensures r[k] >= r[at + b] {
        assert r[at + (k - at)] == c[k - at] + 1;
      }
    }
  }

  /** The first row after `h` that is not selected. */
  predicate FirstUnselected(selected: seq<nat>, h: nat, j: nat) {
    h < j && j !in selected && forall i: nat :: h < i < j ==> i in selected
  }

  lemma NoneBefore(rows: seq<nat>, i: nat)
    requires rows != [] && Ascending(rows) && i < rows[0]
    ensures i !in rows
  {
    forall k | 0 <= k < |rows| ensures rows[0] <= rows[k] {
      InOrder(rows, 0, k);
    }
  }

  lemma FirstOther(selected: seq<nat>, h: nat, n: nat, j: nat)
    requires h < n && h in selected && j < n
    ensures FirstUnselected(selected, h, j) <==> Others(selected, h, n) != [] && Others(selected, h, n)[0] == j
  {
    var others := Others(selected, h, n);
    if others != [] {
      assert others[0] in others;
      forall i: nat | h < i < others[0] ensures i in selected {
        NoneBefore(others, i);
      }
    }
    if FirstUnselected(selected, h, j) {
      assert j in others;
      assert others[0] in others;
    }
  }

  /** The row behind the members in the new list is the first unselected one. */
  lemma RowBehind(indents: seq<int>, selected: seq<nat>)
    requires Chosen(selected, |indents|) != []
    ensures var members := Chosen(selected, |indents|);
            var h := members[0];
            h < |indents| && h in selected &&
            var others := Others(selected, h, |indents|);
            var indent := Grouped(indents, selected).indent;
            var next := h + 1 + |members|;
            && h < |indent| && next <= |indent| && (forall k :: 0 <= k < |members| ==> members[k] < |indents|)
            && indent[h] == Shallowest(indents, members)
            && (next == |indent| <==> others == [])
            && (others != [] ==> others[0] < |indents| && indent[next] == indents[others[0]])
  {
    hide Chosen, Others, Shallowest, Grouped, Ascending;
    ChosenExist(selected, |indents|);
    var members := Chosen(selected, |indents|);
    assert members[0] in members;
    OthersExist(selected, members[0], |indents|);
    GroupedIndent(indents, selected);
  }

  /** The new group holds exactly the selection when the first unselected row after the first selected one, if there
      is one, is no deeper than the shallowest selected row; otherwise that row falls into the group as well. */
  lemma GroupIsExactlySelectionIff(indents: seq<int>, selected: seq<nat>)
    requires Chosen(selected, |indents|) != []
    ensures forall k :: 0 <= k < |Chosen(selected, |indents|)| ==> Chosen(selected, |indents|)[k] < |indents|
    ensures var members := Chosen(selected, |indents|);
            var indent := Grouped(indents, selected).indent;
            var h := members[0];
            (forall j: nat :: Under(indent, h, j) <==> h < j < h + 1 + |members|)
            <==> (forall j: nat :: j < |indents| && FirstUnselected(selected, h, j) ==>
                    indents[j] <= Shallowest(indents, members))
  {
    hide Chosen, Grouped, Others, Shallowest, FirstUnselected, Under;
    ChosenExist(selected, |indents|);
    MemberDepths(indents, selected);
    RowBehind(indents, selected);
    var members := Chosen(selected, |indents|);
    var indent := Grouped(indents, selected).indent;
    var others := Others(selected, members[0], |indents|);
    FollowersAreUnder(indent, members[0], Compacted(indents, members));
    RunEnds(indent, members[0], members[0] + 1 + |members|);
    forall j: nat | j < |indents| ensures FirstUnselected(selected, members[0], j) <==> others != [] && others[0] == j {
      FirstOther(selected, members[0], |indents|, j);
    }
  }

  /** A row deeper than the selection that lay between two selected rows falls into the group, not below it. */
  lemma GroupSwallows()
    ensures var indents, selected: seq<nat> := [0, 1, 0], [0, 2];
            && Chosen(selected, |indents|) == [0, 2]
            && Grouped(indents, selected) == Plan([-1, 0, 2, 1], [0, 1, 1, 1])
            && 1 !in selected && Under(Grouped(indents, selected).indent, 0, 3)
  {
    hide Chosen, Others, Shallowest;
    var indents, selected: seq<nat> := [0, 1, 0], [0, 2];
    SwallowedRows();
    SwallowDepth();
    assert Compacted(indents, [0, 2]) == [0, 0] && Deeper([0, 0]) == [1, 1];
    assert Numbers([0, 2]) == [0, 2] && Numbers([1]) == [1] && Compacted(indents, [1]) == [1];
    assert Rows(0) == [];
    assert Grouped(indents, selected).indent == [0, 1, 1, 1];
  }

  lemma SwallowedRows()
    ensures Chosen([0, 2], 3) == [0, 2] && Others([0, 2], 0, 3) == [1]
  {
    var selected: seq<nat> := [0, 2];
    assert Chosen(selected, 0) == [] && Others(selected, 0, 0) == [];
    assert Chosen(selected, 1) == [0] && Others(selected, 0, 1) == [];
    assert Chosen(selected, 2) == [0] && Others(selected, 0, 2) == [1];
  }

  lemma SwallowDepth()
    ensures Shallowest([0, 1, 0], [0, 2]) == 0
  {
    assert [0, 2][..1] == [0];
    assert Shallowest([0, 1, 0], [0]) == 0;
  }

  lemma UnderStops(indent: seq<int>, h: nat, next: nat, j: nat)
    requires h < next < |indent| && indent[next] <= indent[h] && Under(indent, h, j)
    ensures j < next
  {
  }

  lemma RunEnds(indent: seq<int>, h: nat, next: nat)
    requires h < next <= |indent| && forall j :: h < j < next ==> Under(indent, h, j)
    ensures (forall j: nat :: Under(indent, h, j) <==> h < j < next) <==> (next == |indent| || indent[next] <= indent[h])
  {
    assert forall j :: h < j < next ==> indent[j] > indent[h] by {
      forall j | h < j < next ensures indent[j] > indent[h] {
        assert Under(indent, h, j);
      }
    }
    if next < |indent| && indent[next] > indent[h] {
      assert Under(indent, h, next);
    }
    if next < |indent| && indent[next] <= indent[h] {
      forall j: nat | Under(indent, h, j) ensures j < next {
        UnderStops(indent, h, next, j);
      }
    }
  }
}
