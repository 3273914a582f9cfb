/** A forest of records as nested XML, and the loader that takes it apart again. */
module TableXml {
  import opened Text
  import opened XmlTokens
  import opened XmlFields
  import opened TableRecord

  const ENTRY := "CheatEntry"
  const LIST := "CheatEntries"

  /** The records at one level, in order. `hasList` says whether a child list is written at all; it may be empty. */
  datatype Forest = Nil | Entry(record: Record, hasList: bool, kids: Forest, rest: Forest)

  function ListItems(hasList: bool, kids: Forest): seq<Item>
    decreases kids, 1
  {
    if hasList then
      [Chars("      "), Tag(LIST), Chars("\n")] + (Items(kids) + [Chars("      "), Tag("/" + LIST), Chars("\n")])
    else []
  }

  /** From the open tag of a record to its close tag. */
  function Body(r: Record, hasList: bool, kids: Forest): seq<Item>
    decreases kids, 2
  {
    [Tag(ENTRY)] + ([Chars("\n")] + Flatten(Parts(r)) + ListItems(hasList, kids) + [Chars("    ")]) + [Tag("/" + ENTRY)]
  }

  function Items(f: Forest): seq<Item>
    decreases f, 0
  {
    match f
    case Nil => []
    case Entry(r, hasList, kids, rest) => [Chars("    ")] + (Body(r, hasList, kids) + ([Chars("\n")] + Items(rest)))
  }

  predicate AllWritable(f: Forest) {
    f.Entry? ==> Writable(f.record) && AllWritable(f.kids) && AllWritable(f.rest) && (f.hasList || f.kids.Nil?)
  }

  /** The records in depth-first order, each with the identifier of the record it is nested in. */
  function Preorder(f: Forest, parentId: int): seq<Loaded> {
    match f
    case Nil => []
    case Entry(r, _, kids, rest) => [Restored(r, parentId)] + Preorder(kids, r.id) + Preorder(rest, parentId)
  }

  // ----- the loader -----

  /** The position of a record's child list and the end of its own fields. */
  function OwnText(entryXml: string): string {
    var nested := Find(entryXml, Open(LIST), 0);
    if nested.Some? then
      FoundWithin(entryXml, Open(LIST), 0);
      entryXml[..nested.value]
    else entryXml
  }

  function ChildText(entryXml: string): (r: string)
    ensures |r| <= |entryXml|
    ensures r != "" ==> |r| < |entryXml|
  {
    var nested := Find(entryXml, Open(LIST), 0);
    if nested.None? then ""
    else
      var close := MatchingClose(entryXml, nested.value, LIST);
      if close.None? then "" else entryXml[nested.value + |Open(LIST)|..close.value]
  }

  /** The text of the first record at or after `pos` and where it ends. */
  function NextEntry(xml: string, pos: nat): (r: Option<(nat, nat)>)
    ensures r.Some? ==> pos <= r.value.0 < r.value.1 <= |xml|
  {
    var start := Find(xml, Open(ENTRY), pos);
    if start.None? then None
    else
      var close := MatchingClose(xml, start.value, ENTRY);
      if close.None? then None else Some((start.value, close.value + |Open("/" + ENTRY)|))
  }

  function ParseFrom(xml: string, pos: nat, parentId: int): seq<Loaded>
    decreases |xml|, |xml| - pos
  {
    var next := NextEntry(xml, pos);
    if next.None? then []
    else
      var entryXml := xml[next.value.0..next.value.1];
      var e := ReadRecord(OwnText(entryXml), parentId);
      var children := ChildText(entryXml);
      [e] + (if children == "" then [] else ParseFrom(children, 0, e.id)) + ParseFrom(xml, next.value.1, parentId)
  }

  /** A record with what is nested in it. */
  function ParseEntry(entryXml: string, parentId: int): seq<Loaded> {
    var e := ReadRecord(OwnText(entryXml), parentId);
    [e] + if ChildText(entryXml) == "" then [] else ParseFrom(ChildText(entryXml), 0, e.id)
  }

  lemma ParseStep(xml: string, pos: nat, parentId: int)
    ensures var next := NextEntry(xml, pos);
            ParseFrom(xml, pos, parentId)
            == if next.None? then []
               else ParseEntry(xml[next.value.0..next.value.1], parentId) + ParseFrom(xml, next.value.1, parentId)
  {
    hide OwnText, ChildText, NextEntry, ReadRecord;
  }

  method ReadEntry(entryXml: string, parentId: int, entries: seq<Loaded>) returns (out: seq<Loaded>)
    ensures out == entries + ParseEntry(entryXml, parentId)
    decreases |entryXml|, 0
  {
    hide OwnText, NextEntry, ReadRecord, ParseFrom;
    var e := ReadRecord(OwnText(entryXml), parentId);
    out := entries + [e];
    var children := ChildText(entryXml);
    if children != "" {
      out := ParseCheatEntriesBlock(children, e.id, out);
    }
  }

  method ParseCheatEntriesBlock(entriesXml: string, parentId: int, entries: seq<Loaded>) returns (out: seq<Loaded>)
    ensures out == entries + ParseFrom(entriesXml, 0, parentId)
    decreases |entriesXml|, 1
  {
    hide *;
    out := entries;
    var pos: nat := 0;
    while true
      invariant out + ParseFrom(entriesXml, pos, parentId) == entries + ParseFrom(entriesXml, 0, parentId)
      decreases |entriesXml| - pos
    {
      ParseStep(entriesXml, pos, parentId);
      var next := NextEntry(entriesXml, pos);
      if next.None? {
        return;
      }
      var entryXml := entriesXml[next.value.0..next.value.1];
      ThenRest(out, ParseEntry(entryXml, parentId), ParseFrom(entriesXml, next.value.1, parentId));
      out := ReadEntry(entryXml, parentId, out);
      pos := next.value.1;
    }
  }

  lemma ThenRest(a: seq<Loaded>, b: seq<Loaded>, c: seq<Loaded>)
    ensures a + (b + c) == (a + b) + c
  {
  }

  // ----- nesting -----

  /** A scan for the close tag passes over these items at any depth. */
  ghost predicate Balanced(a: seq<Item>, tag: string) {
    forall depth: nat, rest: seq<Item> {:trigger TagScan(a + rest, depth, tag)} ::
      depth > 0 ==> TagScan(a + rest, depth, tag) == |a| + TagScan(rest, depth, tag)
  }

  lemma BalancedAppend(a: seq<Item>, b: seq<Item>, tag: string)
    requires Balanced(a, tag) && Balanced(b, tag)
    ensures Balanced(a + b, tag)
  {
    forall depth: nat, rest: seq<Item> | depth > 0
      ensures TagScan((a + b) + rest, depth, tag) == |a + b| + TagScan(rest, depth, tag)
    {
      assert (a + b) + rest == a + (b + rest);
    }
  }

  lemma {:induction false} PlainBalanced(a: seq<Item>, tag: string)
    requires Tag(tag) !in a && Tag("/" + tag) !in a
    ensures Balanced(a, tag)
    decreases |a|
  {
    if a != [] {
      PlainBalanced(a[1..], tag);
    }
    forall depth: nat, rest: seq<Item> | depth > 0
      ensures TagScan(a + rest, depth, tag) == |a| + TagScan(rest, depth, tag)
    {
      if a == [] {
        assert a + rest == rest;
      } else {
        assert (a + rest)[1..] == a[1..] + rest;
      }
    }
  }

  lemma PassOver(a: seq<Item>, rest: seq<Item>, depth: nat, tag: string)
    requires depth > 0 && Balanced(a, tag)
    ensures TagScan(a + rest, depth, tag) == |a| + TagScan(rest, depth, tag)
  {
    hide TagScan;
  }

  lemma ScanHead(tag: string, rest: seq<Item>, depth: nat)
    requires depth > 0
    ensures TagScan([Tag(tag)] + rest, depth, tag) == 1 + TagScan(rest, depth + 1, tag)
    ensures TagScan([Tag("/" + tag)] + rest, depth, tag) == if depth == 1 then 0 else 1 + TagScan(rest, depth - 1, tag)
  {
    CloseName(tag);
    assert ([Tag(tag)] + rest)[1..] == rest && ([Tag("/" + tag)] + rest)[1..] == rest;
  }

  lemma PairBalanced(a: seq<Item>, tag: string)
    requires Balanced(a, tag)
    ensures Balanced([Tag(tag)] + a + [Tag("/" + tag)], tag)
  {
    hide TagScan;
    var b := [Tag(tag)] + a + [Tag("/" + tag)];
    forall depth: nat, rest: seq<Item> | depth > 0 ensures TagScan(b + rest, depth, tag) == |b| + TagScan(rest, depth, tag) {
      hide Balanced;
      var close := [Tag("/" + tag)] + rest;
      assert b + rest == [Tag(tag)] + (a + close);
      ScanHead(tag, a + close, depth);
      PassOver(a, close, depth + 1, tag);
      ScanHead(tag, rest, depth + 1);
    }
  }

  lemma FieldsBalanced(r: Record, tag: string)
    requires Writable(r) && (tag == ENTRY || tag == LIST)
    ensures Balanced(Flatten(Parts(r)), tag)
  {
    hide Writable, Parts, Flatten, Clean;
    PartsAreGood(r);
    assert Structural(tag) && Structural("/" + tag);
    PlainBalanced(Flatten(Parts(r)), tag);
  }

  lemma NamesApart()
    ensures ENTRY != LIST && "/" + ENTRY != "/" + LIST
    ensures ENTRY != "/" + LIST && LIST != "/" + ENTRY && ENTRY != "/" + ENTRY && LIST != "/" + LIST
    ensures TagName(ENTRY) && TagName(LIST)
  {
    assert |ENTRY| == 10 && |LIST| == 12;
  }

  lemma {:induction false} ForestBalanced(f: Forest, tag: string)
    requires AllWritable(f) && (tag == ENTRY || tag == LIST)
    ensures Balanced(Items(f), tag)
    decreases f, 0
  {
    hide Balanced, Body, Writable, TagScan;
    match f
    case Nil => PlainBalanced([], tag);
    case Entry(r, hasList, kids, rest) =>
      BodyBalanced(r, hasList, kids, tag);
      ForestBalanced(rest, tag);
      PlainBalanced([Chars("    ")], tag);
      PlainBalanced([Chars("\n")], tag);
      BalancedAppend([Chars("\n")], Items(rest), tag);
      BalancedAppend(Body(r, hasList, kids), [Chars("\n")] + Items(rest), tag);
      BalancedAppend([Chars("    ")], Body(r, hasList, kids) + ([Chars("\n")] + Items(rest)), tag);
  }

  lemma {:induction false} ListBalanced(hasList: bool, kids: Forest, tag: string)
    requires AllWritable(kids) && (tag == ENTRY || tag == LIST)
    ensures Balanced(ListItems(hasList, kids), tag)
    decreases kids, 1
  {
    hide Balanced, TagScan, Items, Writable;
    NamesApart();
    if !hasList {
      PlainBalanced([], tag);
    } else {
      ForestBalanced(kids, tag);
      var a, b := [Chars("\n")] + (Items(kids) + [Chars("      ")]), [Tag(LIST)];
      PlainBalanced([Chars("\n")], tag);
      PlainBalanced([Chars("      ")], tag);
      BalancedAppend(Items(kids), [Chars("      ")], tag);
      BalancedAppend([Chars("\n")], Items(kids) + [Chars("      ")], tag);
      if tag == LIST {
        PairBalanced(a, tag);
      } else {
        PlainBalanced([Tag(LIST)], tag);
        PlainBalanced([Tag("/" + LIST)], tag);
        BalancedAppend([Tag(LIST)], a, tag);
        BalancedAppend([Tag(LIST)] + a, [Tag("/" + LIST)], tag);
      }
      var pair := [Tag(LIST)] + a + [Tag("/" + LIST)];
      BalancedAppend([Chars("      ")], pair, tag);
      BalancedAppend([Chars("      ")] + pair, [Chars("\n")], tag);
      assert ListItems(hasList, kids) == [Chars("      ")] + pair + [Chars("\n")];
    }
  }

  /** What stands between a record's open and close tag. */
  function Inner(r: Record, hasList: bool, kids: Forest): seq<Item> {
    [Chars("\n")] + Flatten(Parts(r)) + ListItems(hasList, kids) + [Chars("    ")]
  }

  lemma {:induction false} InnerBalanced(r: Record, hasList: bool, kids: Forest, tag: string)
    requires Writable(r) && AllWritable(kids) && (tag == ENTRY || tag == LIST)
    ensures Balanced(Inner(r, hasList, kids), tag)
    decreases kids, 2
  {
    hide Balanced, TagScan, ListItems, Writable, Flatten, Parts, AllWritable;
    FieldsBalanced(r, tag);
    ListBalanced(hasList, kids, tag);
    PlainBalanced([Chars("\n")], tag);
    PlainBalanced([Chars("    ")], tag);
    BalancedAppend([Chars("\n")], Flatten(Parts(r)), tag);
    BalancedAppend([Chars("\n")] + Flatten(Parts(r)), ListItems(hasList, kids), tag);
    BalancedAppend([Chars("\n")] + Flatten(Parts(r)) + ListItems(hasList, kids), [Chars("    ")], tag);
  }

  lemma {:induction false} BodyBalanced(r: Record, hasList: bool, kids: Forest, tag: string)
    requires Writable(r) && AllWritable(kids) && (tag == ENTRY || tag == LIST)
    ensures Balanced(Body(r, hasList, kids), tag)
    decreases kids, 3
  {
    hide Balanced, TagScan, ListItems, Writable, Flatten, Parts, AllWritable;
    NamesApart();
    InnerBalanced(r, hasList, kids, tag);
    if tag == ENTRY {
      PairBalanced(Inner(r, hasList, kids), tag);
    } else {
      PlainBalanced([Tag(ENTRY)], tag);
      PlainBalanced([Tag("/" + ENTRY)], tag);
      BalancedAppend([Tag(ENTRY)], Inner(r, hasList, kids), tag);
      BalancedAppend([Tag(ENTRY)] + Inner(r, hasList, kids), [Tag("/" + ENTRY)], tag);
    }
  }

  // ----- reading a forest back -----

  lemma CleanAppend(a: seq<Item>, b: seq<Item>)
    ensures AllClean(a + b) <==> AllClean(a) && AllClean(b)
  {
    hide Clean;
    if AllClean(a + b) {
      forall i | 0 <= i < |a| ensures Clean(a[i]) {
        assert a[i] == (a + b)[i];
      }
      forall i | 0 <= i < |b| ensures Clean(b[i]) {
        assert b[i] == (a + b)[|a| + i];
      }
    }
  }

  lemma SmallPieces()
    ensures AllClean([Chars("    ")]) && AllClean([Chars("\n")]) && AllClean([Chars("      ")]) && AllClean([])
    ensures AllClean([Tag(ENTRY)]) && AllClean([Tag("/" + ENTRY)]) && AllClean([Tag(LIST)]) && AllClean([Tag("/" + LIST)])
  {
    NamesApart();
    CloseName(ENTRY);
    CloseName(LIST);
  }

  lemma {:induction false} ForestClean(f: Forest)
    requires AllWritable(f)
    ensures AllClean(Items(f))
    decreases f, 0
  {
    hide Body, Writable, AllClean;
    SmallPieces();
    match f
    case Nil =>
    case Entry(r, hasList, kids, rest) =>
      BodyClean(r, hasList, kids);
      ForestClean(rest);
      CleanAppend([Chars("\n")], Items(rest));
      CleanAppend(Body(r, hasList, kids), [Chars("\n")] + Items(rest));
      CleanAppend([Chars("    ")], Body(r, hasList, kids) + ([Chars("\n")] + Items(rest)));
  }

  lemma {:induction false} BodyClean(r: Record, hasList: bool, kids: Forest)
    requires Writable(r) && AllWritable(kids)
    ensures AllClean(Body(r, hasList, kids)) && AllClean(Inner(r, hasList, kids))
    decreases kids, 1
  {
    hide Items, Writable, AllClean, Flatten, Parts, AllWritable;
    SmallPieces();
    PartsAreGood(r);
    ForestClean(kids);
    if hasList {
      var open: seq<Item> := [Chars("      ")] + [Tag(LIST)] + [Chars("\n")];
      var close: seq<Item> := [Chars("      ")] + [Tag("/" + LIST)] + [Chars("\n")];
      CleanAppend([Chars("      ")], [Tag(LIST)]);
      CleanAppend([Chars("      ")] + [Tag(LIST)], [Chars("\n")]);
      CleanAppend([Chars("      ")], [Tag("/" + LIST)]);
      CleanAppend([Chars("      ")] + [Tag("/" + LIST)], [Chars("\n")]);
      CleanAppend(Items(kids), close);
      CleanAppend(open, Items(kids) + close);
      assert ListItems(hasList, kids) == open + (Items(kids) + close);
    }
    CleanAppend([Chars("\n")], Flatten(Parts(r)));
    CleanAppend([Chars("\n")] + Flatten(Parts(r)), ListItems(hasList, kids));
    CleanAppend([Chars("\n")] + Flatten(Parts(r)) + ListItems(hasList, kids), [Chars("    ")]);
    CleanAppend([Tag(ENTRY)], Inner(r, hasList, kids));
    CleanAppend([Tag(ENTRY)] + Inner(r, hasList, kids), [Tag("/" + ENTRY)]);
  }

  /** A list whose inside is balanced: the scan from behind its open tag ends at its close tag. */
  lemma CloseOf(p: string, inner: seq<Item>, tag: string, after: seq<Item>)
    requires Balanced(inner, tag) && TagName(tag) && AllClean(inner) && AllClean(after)
    ensures MatchingClose(p + Open(tag) + Render(inner + ([Tag("/" + tag)] + after)), |p|, tag)
         == Some(|p + Open(tag)| + |Render(inner)|)
  {
    hide Find, Open, Clean, TagName, ScanClose, Render, Balanced;
    CloseName(tag);
    var items := inner + ([Tag("/" + tag)] + after);
    SmallClean(tag);
    CleanAppend([Tag("/" + tag)], after);
    CleanAppend(inner, [Tag("/" + tag)] + after);
    ScanInner(inner, tag, after);
    ScanCloseIs(p + Open(tag), items, 1, tag);
    SplitAt(items, |inner|);
    assert items[..|inner|] == inner;
  }

  lemma SmallClean(tag: string)
    requires TagName(tag)
    ensures AllClean([Tag("/" + tag)]) && AllClean([Tag(tag)])
  {
    CloseName(tag);
  }

  lemma ScanInner(inner: seq<Item>, tag: string, after: seq<Item>)
    requires Balanced(inner, tag)
    ensures TagScan(inner + ([Tag("/" + tag)] + after), 1, tag) == |inner|
  {
    hide TagScan, Balanced;
    PassOver(inner, [Tag("/" + tag)] + after, 1, tag);
    ScanHead(tag, after, 1);
  }

  lemma RenderPair(inner: seq<Item>, tag: string)
    ensures Render([Tag(tag)] + inner + [Tag("/" + tag)]) == Open(tag) + Render(inner) + Open("/" + tag)
  {
    hide Open;
    RenderAppend([Tag(tag)] + inner, [Tag("/" + tag)]);
    RenderAppend([Tag(tag)], inner);
    RenderOne(tag);
    RenderOne("/" + tag);
  }

  lemma RenderOne(tag: string)
    ensures Render([Tag(tag)]) == Open(tag)
  {
    assert Render([Tag(tag)][1..]) == "";
  }

  /** The first record of a forest's text, after `p`. */
  lemma FirstEntry(p: string, inner: seq<Item>, after: seq<Item>)
    requires Balanced(inner, ENTRY) && AllClean(inner) && AllClean(after)
    ensures var body := [Tag(ENTRY)] + inner + [Tag("/" + ENTRY)];
            var xml := p + ("    " + (Render(body) + Render(after)));
            NextEntry(xml, |p|) == Some((|p| + 4, |p| + 4 + |Render(body)|))
            && xml[|p| + 4..|p| + 4 + |Render(body)|] == Render(body)
  {
    hide Find, Open, Clean, TagName, MatchingClose, Render, Balanced;
    NamesApart();
    var body := [Tag(ENTRY)] + inner + [Tag("/" + ENTRY)];
    var xml := p + ("    " + (Render(body) + Render(after)));
    RenderPair(inner, ENTRY);
    RenderClosed(inner, ENTRY, after);
    var behind := Render(inner + ([Tag("/" + ENTRY)] + after));
    var q := p + "    ";
    assert xml == q + (Open(ENTRY) + behind);
    SpacesAreClean();
    assert Piece(Chars("    ")) == "    ";
    assert xml == p + (Piece(Chars("    ")) + (Open(ENTRY) + behind));
    FindFromHead(p, Chars("    "), Open(ENTRY) + behind, ENTRY);
    FindHere(q, behind, ENTRY);
    CloseOf(q, inner, ENTRY, after);
    assert q + Open(ENTRY) + behind == xml;
    OpenLengths();
  }

  lemma OpenLengths()
    ensures |Open(ENTRY)| == 12 && |Open("/" + ENTRY)| == 13 && |Open(LIST)| == 14 && |Open("/" + LIST)| == 15
  {
  }

  lemma SpacesAreClean()
    ensures Clean(Chars("    ")) && Clean(Chars("\n")) && Clean(Chars("      "))
  {
  }

  lemma RenderClosed(inner: seq<Item>, tag: string, after: seq<Item>)
    ensures Render(inner + ([Tag("/" + tag)] + after)) == Render(inner) + (Open("/" + tag) + Render(after))
  {
    hide Open;
    RenderAppend(inner, [Tag("/" + tag)] + after);
    RenderAppend([Tag("/" + tag)], after);
    RenderOne("/" + tag);
  }

  // ----- one record and its children -----

  /** What stands between a list's open and close tag. */
  function ListInner(kids: Forest, pad: string): seq<Item> {
    [Chars("\n")] + (Items(kids) + [Chars(pad)])
  }

  const AFTER_LIST: seq<Item> := [Chars("\n"), Chars("    "), Tag("/" + ENTRY)]

  lemma BodyWithList(r: Record, kids: Forest)
    ensures Body(r, true, kids) == OwnItems(r, [Chars("      ")]) + ([Tag(LIST)] + (ListInner(kids, "      ") + ([Tag("/" + LIST)] + AFTER_LIST)))
  {
    hide Flatten, Parts, Items;
    var list := ListItems(true, kids);
    assert list == [Chars("      ")] + ([Tag(LIST)] + (ListInner(kids, "      ") + [Tag("/" + LIST), Chars("\n")]));
  }

  lemma BodyWithoutList(r: Record)
    ensures Body(r, false, Nil) == OwnItems(r, [Chars("    "), Tag("/" + ENTRY)])
  {
    hide Flatten, Parts;
  }

  lemma NoListInOwn(r: Record, post: seq<Item>)
    requires Writable(r) && AllClean(post) && StructFree(post)
    ensures Tag(LIST) !in OwnItems(r, post) && AllClean(OwnItems(r, post))
  {
    hide Flatten, Parts, Writable, Clean;
    PartsAreGood(r);
    OwnIsClean(r, post);
    assert Structural(LIST);
    NamesApart();
  }

  lemma PostsAreFree()
    ensures FieldFree([Chars("      ")]) && FieldFree([Chars("    "), Tag("/" + ENTRY)])
    ensures StructFree([Chars("      ")])
    ensures AllClean([Chars("    "), Tag("/" + ENTRY)]) && Tag(LIST) !in [Chars("    "), Tag("/" + ENTRY)]
  {
    forall f: Field ensures Name(f) != "/" + ENTRY {
      NameShape(f);
      assert ("/" + ENTRY)[0] == '/';
    }
    NamesApart();
    SmallPieces();
  }

  lemma TextsAt(xml: string, n: nat, close: nat)
    requires Find(xml, Open(LIST), 0) == Some(n) && MatchingClose(xml, n, LIST) == Some(close)
    ensures n + |Open(LIST)| <= close <= |xml|
    ensures OwnText(xml) == xml[..n] && ChildText(xml) == xml[n + |Open(LIST)|..close]
  {
    hide Find, Open, ScanClose;
  }

  lemma ListClean(own: seq<Item>, inner: seq<Item>, after: seq<Item>)
    requires AllClean(own) && AllClean(inner) && AllClean(after)
    ensures AllClean(own + ([Tag(LIST)] + (inner + ([Tag("/" + LIST)] + after))))
  {
    hide AllClean;
    SmallPieces();
    var behind := inner + ([Tag("/" + LIST)] + after);
    CleanAppend([Tag("/" + LIST)], after);
    CleanAppend(inner, [Tag("/" + LIST)] + after);
    CleanAppend([Tag(LIST)], behind);
    CleanAppend(own, [Tag(LIST)] + behind);
  }

  lemma ListRendered(own: seq<Item>, inner: seq<Item>, after: seq<Item>)
    ensures var behind := inner + ([Tag("/" + LIST)] + after);
            Render(own + ([Tag(LIST)] + behind)) == Render(own) + Open(LIST) + Render(behind)
            && Render(behind) == Render(inner) + (Open("/" + LIST) + Render(after))
  {
    hide Open, Render;
    var behind := inner + ([Tag("/" + LIST)] + after);
    RenderAppend(own, [Tag(LIST)] + behind);
    RenderAppend([Tag(LIST)], behind);
    RenderOne(LIST);
    RenderClosed(inner, LIST, after);
  }

  /** Splitting a text at a list's open tag and at its matching close tag. */
  lemma SplitList(own: seq<Item>, inner: seq<Item>, after: seq<Item>)
    requires AllClean(own) && Tag(LIST) !in own && AllClean(inner) && AllClean(after) && Balanced(inner, LIST)
    ensures var xml := Render(own + ([Tag(LIST)] + (inner + ([Tag("/" + LIST)] + after))));
            OwnText(xml) == Render(own) && ChildText(xml) == Render(inner)
  {
    hide *;
    NamesApart();
    ListClean(own, inner, after);
    ListRendered(own, inner, after);
    var behind := inner + ([Tag("/" + LIST)] + after);
    FirstList(own, behind);
    CloseOf(Render(own), inner, LIST, after);
    Pieces(Render(own), Open(LIST), Render(inner), Open("/" + LIST) + Render(after));
    TextsAt(Render(own + ([Tag(LIST)] + behind)), |Render(own)|, |Render(own) + Open(LIST)| + |Render(inner)|);
  }

  lemma Pieces(a: string, b: string, c: string, d: string)
    ensures (a + b + (c + d))[..|a|] == a && (a + b + (c + d))[|a| + |b|..|a + b| + |c|] == c
  {
  }

  lemma FirstList(own: seq<Item>, behind: seq<Item>)
    requires AllClean(own + ([Tag(LIST)] + behind)) && Tag(LIST) !in own
    ensures Find(Render(own + ([Tag(LIST)] + behind)), Open(LIST), 0) == Some(|Render(own)|)
  {
    hide Find, Open, Clean, TagName, Render;
    NamesApart();
    var items := own + ([Tag(LIST)] + behind);
    FirstTagAfter(own, [Tag(LIST)] + behind, LIST);
    FindTagIs("", items, LIST);
    assert "" + Render(items) == Render(items);
    SplitAt(items, |own|);
    assert items[..|own|] == own;
  }

  lemma NoList(items: seq<Item>)
    requires AllClean(items) && Tag(LIST) !in items
    ensures OwnText(Render(items)) == Render(items) && ChildText(Render(items)) == ""
  {
    hide Find, Open, Clean, TagName, Render;
    NamesApart();
    FirstTagAfter(items, [], LIST);
    assert items + [] == items;
    FindTagIs("", items, LIST);
    assert "" + Render(items) == Render(items);
  }

  lemma ListInnerGood(kids: Forest, pad: string)
    requires AllWritable(kids) && '<' !in pad
    ensures AllClean(ListInner(kids, pad)) && Balanced(ListInner(kids, pad), LIST)
    ensures Render(ListInner(kids, pad)) == "\n" + Render(Items(kids) + [Chars(pad)])
  {
    hide Balanced, Items, AllClean, AllWritable, Clean, TagScan, Render;
    SmallPieces();
    ForestClean(kids);
    ForestBalanced(kids, LIST);
    NamesApart();
    PadIsClean(pad);
    CleanAppend(Items(kids), [Chars(pad)]);
    CleanAppend([Chars("\n")], Items(kids) + [Chars(pad)]);
    PlainBalanced([Chars("\n")], LIST);
    PlainBalanced([Chars(pad)], LIST);
    BalancedAppend(Items(kids), [Chars(pad)], LIST);
    BalancedAppend([Chars("\n")], Items(kids) + [Chars(pad)], LIST);
    RenderAppend([Chars("\n")], Items(kids) + [Chars(pad)]);
    CharsOnly("\n");
  }

  lemma PadIsClean(pad: string)
    requires '<' !in pad
    ensures AllClean([Chars(pad)])
  {
  }

  lemma AfterListClean()
    ensures AllClean(AFTER_LIST)
  {
    SmallPieces();
    CloseName(ENTRY);
    NamesApart();
  }

  /** A record's own text reads as the record; what is left for its children is their text. */
  lemma BodySplits(r: Record, hasList: bool, kids: Forest, parentId: int)
    requires Writable(r) && AllWritable(kids) && (hasList || kids.Nil?)
    ensures var xml := Render(Body(r, hasList, kids));
            && ReadRecord(OwnText(xml), parentId) == Restored(r, parentId)
            && ChildText(xml) == if hasList then Render(ListInner(kids, "      ")) else ""
  {
    hide Flatten, Parts, Items, Clean, Writable, AllWritable, OwnText, ChildText, Render, Body, OwnItems, Balanced, ListInner;
    PostsAreFree();
    SmallPieces();
    if hasList {
      BodyWithList(r, kids);
      ListInnerGood(kids, "      ");
      AfterListClean();
      NoListInOwn(r, [Chars("      ")]);
      SplitList(OwnItems(r, [Chars("      ")]), ListInner(kids, "      "), AFTER_LIST);
      RecordReadsBack(r, [Chars("      ")], parentId);
    } else {
      BodyWithoutList(r);
      OwnWithEnd(r);
      NoList(OwnItems(r, [Chars("    "), Tag("/" + ENTRY)]));
      RecordReadsBack(r, [Chars("    "), Tag("/" + ENTRY)], parentId);
    }
  }

  lemma OwnWithEnd(r: Record)
    requires Writable(r)
    ensures AllClean(OwnItems(r, [Chars("    "), Tag("/" + ENTRY)])) && Tag(LIST) !in OwnItems(r, [Chars("    "), Tag("/" + ENTRY)])
  {
    hide Flatten, Parts, Clean, Writable;
    PostsAreFree();
    EmptyIsInert();
    NoListInOwn(r, []);
    OwnIsClean(r, [Chars("    "), Tag("/" + ENTRY)]);
  }

  // ----- the round trip -----

  lemma ParseSkip(xml: string, a: nat, b: nat, parentId: int)
    requires Find(xml, Open(ENTRY), a) == Find(xml, Open(ENTRY), b)
    ensures ParseFrom(xml, a, parentId) == ParseFrom(xml, b, parentId)
  {
    hide ParseFrom, NextEntry;
    ParseStep(xml, a, parentId);
    ParseStep(xml, b, parentId);
    SameNext(xml, a, b);
  }

  lemma SameNext(xml: string, a: nat, b: nat)
    requires Find(xml, Open(ENTRY), a) == Find(xml, Open(ENTRY), b)
    ensures NextEntry(xml, a) == NextEntry(xml, b)
  {
    hide Find, Open, MatchingClose;
  }

  lemma ParseNothing(p: string, post: seq<Item>, parentId: int)
    requires AllClean(post) && Tag(ENTRY) !in post
    ensures ParseFrom(p + Render(post), |p|, parentId) == []
  {
    hide Find, Open, Clean, TagName, Render, MatchingClose;
    NamesApart();
    FirstTagAfter(post, [], ENTRY);
    assert post + [] == post;
    FindTagIs(p, post, ENTRY);
  }

  lemma SkipChars(p: string, c: string, rest: string, parentId: int)
    requires '<' !in c
    ensures ParseFrom(p + (c + rest), |p|, parentId) == ParseFrom((p + c) + rest, |p + c|, parentId)
  {
    hide Find, Open, ParseFrom;
    NamesApart();
    assert Piece(Chars(c)) == c;
    FindFromHead(p, Chars(c), rest, ENTRY);
    assert p + (c + rest) == (p + c) + rest;
    ParseSkip(p + (c + rest), |p|, |p + c|, parentId);
  }

  lemma HeadReads(p: string, r: Record, hasList: bool, kids: Forest, after: seq<Item>, parentId: int)
    requires Writable(r) && AllWritable(kids) && AllClean(after)
    ensures var body := Render(Body(r, hasList, kids));
            var xml := p + ("    " + (body + Render(after)));
            ParseFrom(xml, |p|, parentId) == ParseEntry(body, parentId) + ParseFrom(xml, |p + "    " + body|, parentId)
  {
    hide *;
    BodyClean(r, hasList, kids);
    InnerBalanced(r, hasList, kids, ENTRY);
    BodyIsInner(r, hasList, kids);
    FirstEntry(p, Inner(r, hasList, kids), after);
    ParseStep(p + ("    " + (Render(Body(r, hasList, kids)) + Render(after))), |p|, parentId);
  }

  lemma AfterIsClean(rest: Forest, post: seq<Item>)
    requires AllWritable(rest) && AllClean(post)
    ensures AllClean([Chars("\n")] + (Items(rest) + post))
    ensures Render([Chars("\n")] + (Items(rest) + post)) == "\n" + Render(Items(rest) + post)
  {
    hide *;
    ForestClean(rest);
    SmallPieces();
    CleanAppend(Items(rest), post);
    CleanAppend([Chars("\n")], Items(rest) + post);
    RenderAppend([Chars("\n")], Items(rest) + post);
    CharsOnly("\n");
  }

  /** Reading the text of a forest gives its records in depth-first order, each under its parent. */
  lemma {:induction false} ForestReadsBack(p: string, f: Forest, post: seq<Item>, parentId: int)
    requires AllWritable(f) && AllClean(post) && Tag(ENTRY) !in post
    ensures ParseFrom(p + Render(Items(f) + post), |p|, parentId) == Preorder(f, parentId)
    decreases f, 0
  {
    hide ParseFrom, Render, Body, Clean, Writable, AllClean, Restored, ParseEntry;
    match f
    case Nil =>
      assert Items(f) + post == post;
      ParseNothing(p, post, parentId);
    case Entry(r, hasList, kids, rest) =>
      EntryRendered(f, post);
      AfterIsClean(rest, post);
      HeadReads(p, r, hasList, kids, [Chars("\n")] + (Items(rest) + post), parentId);
      EntryReadsBack(r, hasList, kids, parentId);
      var body, text := Render(Body(r, hasList, kids)), Render(Items(rest) + post);
      assert p + ("    " + (body + ("\n" + text))) == (p + "    " + body) + ("\n" + text);
      SkipChars(p + "    " + body, "\n", text, parentId);
      ForestReadsBack(p + "    " + body + "\n", rest, post, parentId);
  }

  lemma BodyIsInner(r: Record, hasList: bool, kids: Forest)
    ensures Body(r, hasList, kids) == [Tag(ENTRY)] + Inner(r, hasList, kids) + [Tag("/" + ENTRY)]
  {
  }

  lemma EntryRendered(f: Forest, post: seq<Item>)
    requires f.Entry?
    ensures Render(Items(f) + post)
         == "    " + (Render(Body(f.record, f.hasList, f.kids)) + Render([Chars("\n")] + (Items(f.rest) + post)))
  {
    hide Render, Body;
    var body := Body(f.record, f.hasList, f.kids);
    var after := [Chars("\n")] + (Items(f.rest) + post);
    assert Items(f) + post == [Chars("    ")] + (body + after);
    RenderAppend([Chars("    ")], body + after);
    RenderAppend(body, after);
    CharsOnly("    ");
  }

  lemma {:induction false} EntryReadsBack(r: Record, hasList: bool, kids: Forest, parentId: int)
    requires Writable(r) && AllWritable(kids) && (hasList || kids.Nil?)
    ensures ParseEntry(Render(Body(r, hasList, kids)), parentId) == [Restored(r, parentId)] + Preorder(kids, r.id)
    decreases kids, 1
  {
    hide ParseFrom, Render, Body, Writable, AllClean, OwnText, ChildText, ReadRecord, Items;
    BodySplits(r, hasList, kids, parentId);
    if hasList {
      ListInnerGood(kids, "      ");
      SmallPieces();
      var text := Render(Items(kids) + [Chars("      ")]);
      ForestReadsBack("\n", kids, [Chars("      ")], r.id);
      SkipChars("", "\n", text, r.id);
      assert "" + ("\n" + text) == "\n" + text && ("" + "\n") + text == "\n" + text;
    }
  }

  /** Loading a table: the outermost list, found by its first open tag and the matching close tag. */
  function LoadEntries(xml: string): seq<Loaded> {
    if ChildText(xml) == "" then [] else ParseFrom(ChildText(xml), 0, -1)
  }

  /** Loading a saved table gives its records back, in depth-first order. */
  lemma TableReadsBack(header: seq<Item>, f: Forest, footer: seq<Item>)
    requires AllWritable(f) && AllClean(header) && AllClean(footer) && Tag(LIST) !in header
    ensures LoadEntries(Render(header + ([Tag(LIST)] + (ListInner(f, "  ") + ([Tag("/" + LIST)] + footer))))) == Preorder(f, -1)
  {
    hide ParseFrom, Render, AllWritable, AllClean, OwnText, ChildText, Items, ListInner, Balanced;
    ListInnerGood(f, "  ");
    PadIsClean("  ");
    SplitList(header, ListInner(f, "  "), footer);
    SmallPieces();
    var text := Render(Items(f) + [Chars("  ")]);
    ForestReadsBack("\n", f, [Chars("  ")], -1);
    SkipChars("", "\n", text, -1);
    assert "" + ("\n" + text) == "\n" + text && ("" + "\n") + text == "\n" + text;
  }
}
