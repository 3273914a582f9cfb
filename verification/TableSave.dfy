/** Saving a table step by step: child lists by row, a done mark per record, and the text as it grows. */
module TableSave {
  import opened Text
  import opened XmlTokens
  import opened TableRecord
  import opened TableXml
  import opened TableWriter
  import opened TableForest

  function DoneSet(done: seq<bool>): (s: set<nat>)
    ensures forall i: nat :: i in s <==> i < |done| && done[i]
  {
    if done == [] then {}
    else if done[|done| - 1] then DoneSet(done[..|done| - 1]) + {|done| - 1}
    else DoneSet(done[..|done| - 1])
  }

  function NestText(rows: seq<Row>, f: Nest): string {
    Render(Items(ToForest(rows, f)))
  }

  lemma {:induction false} NestTextAppend(rows: seq<Row>, f: Nest, g: Nest)
    requires Nested(rows, f, None)
    ensures NestText(rows, AppendNest(f, g)) == NestText(rows, f) + NestText(rows, g)
  {
    hide Render, Body;
    ItemsAppend(rows, f, g, None);
    RenderAppend(Items(ToForest(rows, f)), Items(ToForest(rows, g)));
  }

  lemma {:induction false} ItemsAppend(rows: seq<Row>, f: Nest, g: Nest, p: Option<nat>)
    requires Nested(rows, f, p)
    ensures Items(ToForest(rows, AppendNest(f, g))) == Items(ToForest(rows, f)) + Items(ToForest(rows, g))
  {
    hide Body;
    match f
    case Leaf => assert [] + Items(ToForest(rows, g)) == Items(ToForest(rows, g));
    case Write(i, hasList, kids, rest) =>
      ItemsAppend(rows, rest, g, p);
      var body := Body(rows[i].record, hasList, ToForest(rows, kids));
      var a, b := Items(ToForest(rows, rest)), Items(ToForest(rows, g));
      assert [Chars("    ")] + (body + ([Chars("\n")] + (a + b))) == ([Chars("    ")] + (body + ([Chars("\n")] + a))) + b;
  }

  lemma {:induction false} WriteAppend(rows: seq<Row>, a: seq<nat>, b: seq<nat>, done: set<nat>)
    requires Within(rows, a) && Within(rows, b)
    ensures Within(rows, a + b)
    ensures var first := WriteMany(rows, a, done);
            var second := WriteMany(rows, b, first.done);
            WriteMany(rows, a + b, done) == Written(AppendNest(first.nest, second.nest), second.done)
    decreases |Upto(|rows|) - done|, |a|
  {
    hide Children, Upto;
    if a == [] {
      assert a + b == b;
    } else {
      assert (a + b)[1..] == a[1..] + b && (a + b)[0] == a[0];
      if a[0] in done {
        WriteAppend(rows, a[1..], b, done);
      } else {
        OneLess(|rows|, done, a[0]);
        var kids := WriteMany(rows, Children(rows, a[0]), done + {a[0]});
        FewerLeft(|rows|, done + {a[0]}, kids.done);
        WriteAppend(rows, a[1..], b, kids.done);
      }
    }
  }

  lemma OneWritten(rows: seq<Row>, i: nat, done: set<nat>)
    requires i < |rows| && i !in done
    ensures var kids := WriteMany(rows, Children(rows, i), done + {i});
            WriteMany(rows, [i], done) == Written(Write(i, Children(rows, i) != [], kids.nest, Leaf), kids.done)
  {
    hide Children, Upto;
    assert [i][1..] == [];
  }

  /** The text of one record that was not written yet. */
  lemma OneText(rows: seq<Row>, i: nat, done: set<nat>)
    requires i < |rows| && i !in done
    ensures var kids := WriteMany(rows, Children(rows, i), done + {i});
            && WriteMany(rows, [i], done).done == kids.done
            && NestText(rows, WriteMany(rows, [i], done).nest)
               == "    <CheatEntry>\n" + Render(Flatten(Parts(rows[i].record)))
                  + (if Children(rows, i) != [] then "      <CheatEntries>\n" + NestText(rows, kids.nest) + "      </CheatEntries>\n" else "")
                  + "    </CheatEntry>\n"
  {
    hide *;
    OneWritten(rows, i, done);
    var kids := WriteMany(rows, Children(rows, i), done + {i});
    NestIsEntry(rows, i, Children(rows, i) != [], kids.nest);
    EntryText(rows[i].record, Children(rows, i) != [], ToForest(rows, kids.nest));
  }

  lemma NestIsEntry(rows: seq<Row>, i: nat, hasList: bool, kids: Nest)
    requires i < |rows|
    ensures NestText(rows, Write(i, hasList, kids, Leaf)) == Render(Items(Entry(rows[i].record, hasList, ToForest(rows, kids), Nil)))
    ensures NestText(rows, kids) == Render(Items(ToForest(rows, kids)))
  {
    hide Items, Render;
    assert ToForest(rows, Leaf) == Nil;
  }

  lemma EntryText(r: Record, hasList: bool, kids: Forest)
    ensures Render(Items(Entry(r, hasList, kids, Nil)))
         == "    <CheatEntry>\n" + Render(Flatten(Parts(r)))
            + (if hasList then "      <CheatEntries>\n" + Render(Items(kids)) + "      </CheatEntries>\n" else "")
            + "    </CheatEntry>\n"
  {
    hide Flatten, Parts, Render, Items;
    EntryPieces(r, hasList, kids);
    ListText(hasList, kids);
    var fields, list := Flatten(Parts(r)), ListItems(hasList, kids);
    RenderAppend([Chars("    "), Tag(ENTRY), Chars("\n")], fields + (list + [Chars("    "), Tag("/" + ENTRY), Chars("\n")]));
    RenderAppend(fields, list + [Chars("    "), Tag("/" + ENTRY), Chars("\n")]);
    RenderAppend(list, [Chars("    "), Tag("/" + ENTRY), Chars("\n")]);
    RenderThree("    ", ENTRY, "\n");
    RenderThree("    ", "/" + ENTRY, "\n");
    assert "    " + Open(ENTRY) + "\n" == "    <CheatEntry>\n";
    assert "    " + Open("/" + ENTRY) + "\n" == "    </CheatEntry>\n";
  }

  lemma EntryPieces(r: Record, hasList: bool, kids: Forest)
    ensures Items(Entry(r, hasList, kids, Nil))
         == [Chars("    "), Tag(ENTRY), Chars("\n")]
            + (Flatten(Parts(r)) + (ListItems(hasList, kids) + [Chars("    "), Tag("/" + ENTRY), Chars("\n")]))
  {
    hide Flatten, Parts, ListItems;
    assert Items(Nil) == [];
  }

  lemma ListText(hasList: bool, kids: Forest)
    ensures Render(ListItems(hasList, kids))
         == if hasList then "      <CheatEntries>\n" + Render(Items(kids)) + "      </CheatEntries>\n" else ""
  {
    hide Items, Render;
    NoItems();
    if hasList {
      var close := [Chars("      "), Tag("/" + LIST), Chars("\n")];
      RenderAppend([Chars("      "), Tag(LIST), Chars("\n")], Items(kids) + close);
      RenderAppend(Items(kids), close);
      RenderThree("      ", LIST, "\n");
      RenderThree("      ", "/" + LIST, "\n");
      assert "      " + Open(LIST) + "\n" == "      <CheatEntries>\n";
      assert "      " + Open("/" + LIST) + "\n" == "      </CheatEntries>\n";
    }
  }

  lemma NoItems()
    ensures Render([]) == ""
  {
  }

  lemma RenderThree(a: string, tag: string, b: string)
    ensures Render([Chars(a), Tag(tag), Chars(b)]) == a + Open(tag) + b
  {
    hide Render, Open;
    RenderAppend([Chars(a)], [Tag(tag)] + [Chars(b)]);
    RenderAppend([Tag(tag)], [Chars(b)]);
    CharsOnly(a);
    CharsOnly(b);
    RenderOne(tag);
    assert [Chars(a), Tag(tag), Chars(b)] == [Chars(a)] + ([Tag(tag)] + [Chars(b)]);
  }

  // ----- the steps -----

  lemma {:induction false} IndexIs(rows: seq<Row>, id: int, from: nat, at: nat)
    requires from <= at < |rows| && id != 0 && rows[at].record.id == id
    requires forall k :: from <= k < at ==> rows[k].record.id != id
    ensures IndexOf(rows, id, from) == Some(at)
    decreases at - from
  {
    if from < at {
      IndexIs(rows, id, from + 1, at);
    }
  }

  method IndexIds(rows: seq<Row>) returns (idToIndex: map<int, nat>)
    ensures forall id :: id in idToIndex <==> IndexOf(rows, id, 0).Some?
    ensures forall id :: id in idToIndex ==> Some(idToIndex[id]) == IndexOf(rows, id, 0)
  {
    idToIndex := map[];
    var i: nat := 0;
    while i < |rows|
      invariant i <= |rows|
      invariant forall id :: id in idToIndex ==>
        id != 0 && idToIndex[id] < i && rows[idToIndex[id]].record.id == id && Some(idToIndex[id]) == IndexOf(rows, id, 0)
      invariant forall k :: 0 <= k < i && rows[k].record.id != 0 ==> rows[k].record.id in idToIndex
    {
      var id := rows[i].record.id;
      if id != 0 && id !in idToIndex {
        IndexIs(rows, id, 0, i);
        idToIndex := idToIndex[id := i];
      }
      i := i + 1;
    }
  }

  lemma ParentIs(rows: seq<Row>, i: nat, idToIndex: map<int, nat>)
    requires i < |rows|
    requires forall id :: id in idToIndex <==> IndexOf(rows, id, 0).Some?
    requires forall id :: id in idToIndex ==> Some(idToIndex[id]) == IndexOf(rows, id, 0)
    ensures var p := rows[i].parentId;
            ParentOf(rows, i) == if p != -1 && p in idToIndex && idToIndex[p] != i then Some(idToIndex[p]) else None
  {
    hide IndexOf;
  }

  lemma WithParentStep(rows: seq<Row>, p: Option<nat>, i: nat)
    requires i < |rows|
    ensures WithParent(rows, p, i + 1) == if ParentOf(rows, i) == p then WithParent(rows, p, i) + [i] else WithParent(rows, p, i)
    ensures WithParent(rows, p, 0) == []
  {
    hide ParentOf;
  }

  lemma ChildrenAre(rows: seq<Row>, p: nat)
    ensures WithParent(rows, Some(p), |rows|) == Children(rows, p)
  {
  }

  method CollectChildren(rows: seq<Row>) returns (children: array<seq<nat>>, isChild: array<bool>)
    ensures fresh(children) && fresh(isChild) && children.Length == isChild.Length == |rows|
    ensures forall p: nat :: p < |rows| ==> children[p] == Children(rows, p)
    ensures forall i: nat :: i < |rows| ==> (isChild[i] <==> ParentOf(rows, i).Some?)
  {
    hide *;
    var idToIndex := IndexIds(rows);
    children := new seq<nat>[|rows|](_ => []);
    isChild := new bool[|rows|](_ => false);
    forall p: nat ensures WithParent(rows, Some(p), 0) == [] {
      NoneBelowZero(rows, p);
    }
    var i: nat := 0;
    while i < |rows|
      invariant i <= |rows|
      invariant forall p: nat :: p < |rows| ==> children[p] == WithParent(rows, Some(p), i)
      invariant forall k: nat :: k < |rows| ==> (isChild[k] <==> k < i && ParentOf(rows, k).Some?)
    {
      ParentIs(rows, i, idToIndex);
      var id := rows[i].parentId;
      if id != -1 && id in idToIndex && idToIndex[id] != i {
        children[idToIndex[id]] := children[idToIndex[id]] + [i];
        isChild[i] := true;
      }
      forall p: nat | p < |rows| ensures children[p] == WithParent(rows, Some(p), i + 1) {
        WithParentStep(rows, Some(p), i);
      }
      i := i + 1;
    }
    forall p: nat | p < |rows| ensures children[p] == Children(rows, p) {
      ChildrenAre(rows, p);
    }
  }

  lemma NoneBelowZero(rows: seq<Row>, p: nat)
    ensures WithParent(rows, Some(p), 0) == []
  {
  }

  method WriteEntry(rows: seq<Row>, children: array<seq<nat>>, done: array<bool>, i: nat, out: string) returns (text: string)
    requires children.Length == done.Length == |rows| && i < |rows|
    requires forall p: nat :: p < |rows| ==> children[p] == Children(rows, p)
    modifies done
    ensures DoneSet(done[..]) == WriteMany(rows, [i], old(DoneSet(done[..]))).done
    ensures text == out + NestText(rows, WriteMany(rows, [i], old(DoneSet(done[..]))).nest)
    decreases |Upto(|rows|) - DoneSet(done[..])|, 0
  {
    hide Children, WriteMany, NestText, Upto, Render, Flatten, Parts, DoneSet;
    ghost var before := DoneSet(done[..]);
    if done[i] {
      AlreadyDone(rows, i, before);
      assert out + "" == out;
      return out;
    }
    done[i] := true;
    MarkOne(done[..], i, before);
    OneLess(|rows|, before, i);
    var head := "    <CheatEntry>\n" + Render(Flatten(Parts(rows[i].record)));
    var list := "";
    if children[i] != [] {
      list := WriteList(rows, children, done, children[i], "      <CheatEntries>\n");
      list := list + "      </CheatEntries>\n";
    } else {
      NothingWritten(rows, before + {i});
    }
    OneText(rows, i, before);
    text := out + (head + list + "    </CheatEntry>\n");
  }

  method WriteList(rows: seq<Row>, children: array<seq<nat>>, done: array<bool>, list: seq<nat>, out: string)
      returns (text: string)
    requires children.Length == done.Length == |rows| && Within(rows, list)
    requires forall p: nat :: p < |rows| ==> children[p] == Children(rows, p)
    modifies done
    ensures DoneSet(done[..]) == WriteMany(rows, list, old(DoneSet(done[..]))).done
    ensures text == out + NestText(rows, WriteMany(rows, list, old(DoneSet(done[..]))).nest)
    decreases |Upto(|rows|) - DoneSet(done[..])|, 1
  {
    hide Children, WriteMany, NestText, Upto, DoneSet;
    text := out;
    ghost var before := DoneSet(done[..]);
    NothingWritten(rows, before);
    assert list[..0] == [];
    var k := 0;
    while k < |list|
      invariant k <= |list| && Within(rows, list[..k])
      invariant DoneSet(done[..]) == WriteMany(rows, list[..k], before).done
      invariant text == out + NestText(rows, WriteMany(rows, list[..k], before).nest)
    {
      ListStep(rows, list, k, before);
      FewerLeft(|rows|, before, DoneSet(done[..]));
      text := WriteEntry(rows, children, done, list[k], text);
      k := k + 1;
    }
    assert list[..|list|] == list;
  }

  lemma ListStep(rows: seq<Row>, list: seq<nat>, k: nat, before: set<nat>)
    requires Within(rows, list) && k < |list|
    ensures Within(rows, list[..k]) && Within(rows, list[..k + 1])
    ensures var first := WriteMany(rows, list[..k], before);
            var one := WriteMany(rows, [list[k]], first.done);
            var all := WriteMany(rows, list[..k + 1], before);
            all.done == one.done && NestText(rows, all.nest) == NestText(rows, first.nest) + NestText(rows, one.nest)
  {
    hide WriteMany, NestText, Nested;
    assert list[..k + 1] == list[..k] + [list[k]];
    WriteAppend(rows, list[..k], [list[k]], before);
    WrittenIsNested(rows, list[..k], before, None);
    NestTextAppend(rows, WriteMany(rows, list[..k], before).nest, WriteMany(rows, [list[k]], WriteMany(rows, list[..k], before).done).nest);
  }

  lemma AlreadyDone(rows: seq<Row>, i: nat, done: set<nat>)
    requires i < |rows| && i in done
    ensures WriteMany(rows, [i], done) == Written(Leaf, done) && NestText(rows, Leaf) == ""
  {
  }

  lemma NothingWritten(rows: seq<Row>, done: set<nat>)
    ensures WriteMany(rows, [], done) == Written(Leaf, done) && NestText(rows, Leaf) == ""
  {
  }

  lemma MarkOne(done: seq<bool>, i: nat, before: set<nat>)
    requires i < |done| && done[i]
    requires forall k: nat :: k in before <==> k < |done| && k != i && done[k]
    ensures DoneSet(done) == before + {i}
  {
  }

  /** The first pass: the records that are no children. */
  method WriteRoots(rows: seq<Row>, children: array<seq<nat>>, isChild: array<bool>, done: array<bool>) returns (text: string)
    requires children.Length == isChild.Length == done.Length == |rows| && isChild != done
    requires forall p: nat :: p < |rows| ==> children[p] == Children(rows, p)
    requires forall k: nat :: k < |rows| ==> (isChild[k] <==> ParentOf(rows, k).Some?)
    requires DoneSet(done[..]) == {}
    modifies done
    ensures DoneSet(done[..]) == WriteMany(rows, Roots(rows), {}).done
    ensures text == NestText(rows, WriteMany(rows, Roots(rows), {}).nest)
  {
    hide Children, WriteMany, NestText, Upto, Roots, DoneSet, WithParent, ParentOf;
    NothingWritten(rows, {});
    NoRootsYet(rows);
    text := "";
    var i: nat := 0;
    while i < |rows|
      invariant i <= |rows|
      invariant DoneSet(done[..]) == WriteMany(rows, WithParent(rows, None, i), {}).done
      invariant text == NestText(rows, WriteMany(rows, WithParent(rows, None, i), {}).nest)
    {
      if !isChild[i] {
        RootStep(rows, i);
        text := WriteEntry(rows, children, done, i, text);
      } else {
        NoRootStep(rows, i);
      }
      i := i + 1;
    }
    RootsAre(rows);
  }

  /** The sweep: the records that no root reached. */
  method WriteRest(rows: seq<Row>, children: array<seq<nat>>, done: array<bool>, out: string) returns (text: string)
    requires children.Length == done.Length == |rows|
    requires forall p: nat :: p < |rows| ==> children[p] == Children(rows, p)
    modifies done
    ensures text == out + NestText(rows, WriteMany(rows, AllRows(|rows|), old(DoneSet(done[..]))).nest)
  {
    hide Children, WriteMany, NestText, Upto, Roots, DoneSet, WithParent, ParentOf;
    ghost var before := DoneSet(done[..]);
    NothingWritten(rows, before);
    assert AllRows(|rows|)[..0] == [];
    text := out;
    var i: nat := 0;
    while i < |rows|
      invariant i <= |rows|
      invariant Within(rows, AllRows(|rows|)[..i])
      invariant DoneSet(done[..]) == WriteMany(rows, AllRows(|rows|)[..i], before).done
      invariant text == out + NestText(rows, WriteMany(rows, AllRows(|rows|)[..i], before).nest)
    {
      ListStep(rows, AllRows(|rows|), i, before);
      SkipDone(rows, done[..], i);
      if !done[i] {
        text := WriteEntry(rows, children, done, i, text);
      }
      i := i + 1;
    }
    assert AllRows(|rows|)[..|rows|] == AllRows(|rows|);
  }

  /** All records between the outermost tags: the roots first, then whatever is not done. */
  method WriteEntries(rows: seq<Row>) returns (text: string)
    ensures text == NestText(rows, Saved(rows))
  {
    hide Children, WriteMany, NestText, Upto, Roots, Nested, DoneSet, ParentOf;
    var children, isChild := CollectChildren(rows);
    var done := new bool[|rows|](_ => false);
    NoneDone(done[..]);
    var roots := WriteRoots(rows, children, isChild, done);
    text := WriteRest(rows, children, done, roots);
    ghost var first := WriteMany(rows, Roots(rows), {});
    WrittenIsNested(rows, Roots(rows), {}, None);
    NestTextAppend(rows, first.nest, WriteMany(rows, AllRows(|rows|), first.done).nest);
  }

  lemma NoRootsYet(rows: seq<Row>)
    ensures WithParent(rows, None, 0) == []
  {
  }

  lemma NoneDone(done: seq<bool>)
    requires forall k :: 0 <= k < |done| ==> !done[k]
    ensures DoneSet(done) == {}
  {
  }

  lemma SkipDone(rows: seq<Row>, done: seq<bool>, i: nat)
    requires |done| == |rows| && i < |rows|
    ensures done[i] ==> WriteMany(rows, [i], DoneSet(done)) == Written(Leaf, DoneSet(done)) && NestText(rows, Leaf) == ""
  {
    if done[i] {
      AlreadyDone(rows, i, DoneSet(done));
    }
  }

  lemma RootsAre(rows: seq<Row>)
    ensures WithParent(rows, None, |rows|) == Roots(rows)
  {
  }

  lemma NoRootStep(rows: seq<Row>, i: nat)
    requires i < |rows| && ParentOf(rows, i).Some?
    ensures WithParent(rows, None, i + 1) == WithParent(rows, None, i)
  {
  }

  lemma RootStep(rows: seq<Row>, i: nat)
    requires i < |rows| && ParentOf(rows, i).None?
    ensures var first := WriteMany(rows, WithParent(rows, None, i), {});
            var one := WriteMany(rows, [i], first.done);
            var all := WriteMany(rows, WithParent(rows, None, i + 1), {});
            all.done == one.done && NestText(rows, all.nest) == NestText(rows, first.nest) + NestText(rows, one.nest)
  {
    hide WriteMany, NestText, Nested;
    var before := WithParent(rows, None, i);
    WriteAppend(rows, before, [i], {});
    WrittenIsNested(rows, before, {}, None);
    NestTextAppend(rows, WriteMany(rows, before, {}).nest, WriteMany(rows, [i], WriteMany(rows, before, {}).done).nest);
  }
}
