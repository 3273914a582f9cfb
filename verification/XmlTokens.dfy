/** XML text as a row of tags and of text between them, and what the loader's substring searches find in it. */
module XmlTokens {
  import opened Text

  datatype Item = Tag(name: string) | Chars(text: string)

  function Open(tag: string): string {
    "<" + tag + ">"
  }

  function Piece(x: Item): string {
    match x
    case Tag(name) => Open(name)
    case Chars(text) => text
  }

  function Render(items: seq<Item>): string {
    if items == [] then "" else Piece(items[0]) + Render(items[1..])
  }

  predicate TagName(name: string) {
    '<' !in name && '>' !in name
  }

  predicate Clean(x: Item) {
    match x
    case Tag(name) => TagName(name)
    case Chars(text) => '<' !in text
  }

  predicate AllClean(items: seq<Item>) {
    forall i :: 0 <= i < |items| ==> Clean(items[i])
  }

  /** The first such tag, or |items|. */
  function FirstTag(items: seq<Item>, tag: string): (j: nat)
    ensures j <= |items|
    ensures j < |items| ==> items[j] == Tag(tag)
  {
    if items == [] || items[0] == Tag(tag) then 0 else 1 + FirstTag(items[1..], tag)
  }

  lemma {:induction false} RenderAppend(a: seq<Item>, b: seq<Item>)
    ensures Render(a + b) == Render(a) + Render(b)
    decreases |a|
  {
    hide Piece;
    if a == [] {
      assert a + b == b;
    } else {
      RenderAppend(a[1..], b);
      assert (a + b)[1..] == a[1..] + b;
    }
  }

  // ----- substring search meets tags only where they stand -----

  lemma {:induction false} SkipFind(s: string, p: string, from: nat, goal: nat)
    requires from <= goal && forall i :: from <= i < goal ==> !At(s, p, i)
    ensures Find(s, p, from) == Find(s, p, goal)
    decreases goal - from
  {
    if from < goal && from + |p| <= |s| {
      SkipFind(s, p, from + 1, goal);
    }
  }

  lemma AtChar(s: string, p: string, i: nat, k: nat)
    requires At(s, p, i) && k < |p|
    ensures i + k < |s| && s[i + k] == p[k]
  {
    assert s[i..i + |p|][k] == p[k];
  }

  lemma NotThere(s: string, tag: string, i: nat)
    requires i < |s| && s[i] != '<'
    ensures !At(s, Open(tag), i)
  {
    if At(s, Open(tag), i) {
      AtChar(s, Open(tag), i, 0);
    }
  }

  lemma OpenChar(tag: string, k: nat)
    requires k < |tag|
    ensures Open(tag)[k + 1] == tag[k] && |Open(tag)| == |tag| + 2 && Open(tag)[|tag| + 1] == '>'
  {
  }

  /** The first closing bracket ends the name. */
  lemma NotShorter(s: string, i: nat, a: string, b: string)
    requires TagName(b) && At(s, Open(a), i) && At(s, Open(b), i)
    ensures |a| >= |b|
  {
    if |a| < |b| {
      OpenChar(b, |a|);
      AtChar(s, Open(a), i, |a| + 1);
      AtChar(s, Open(b), i, |a| + 1);
    }
  }

  lemma SameTag(s: string, i: nat, a: string, b: string)
    requires TagName(a) && TagName(b) && At(s, Open(a), i) && At(s, Open(b), i)
    ensures a == b
  {
    NotShorter(s, i, a, b);
    NotShorter(s, i, b, a);
    forall k | 0 <= k < |a| ensures a[k] == b[k] {
      OpenChar(a, k);
      OpenChar(b, k);
      AtChar(s, Open(a), i, k + 1);
      AtChar(s, Open(b), i, k + 1);
    }
  }

  lemma OtherTag(p: string, name: string, rest: string, tag: string)
    requires TagName(name) && TagName(tag) && name != tag
    ensures !At(p + (Open(name) + rest), Open(tag), |p|)
  {
    var s := p + (Open(name) + rest);
    assert s[|p|..|p| + |Open(name)|] == Open(name);
    if At(s, Open(tag), |p|) {
      SameTag(s, |p|, name, tag);
    }
  }

  lemma TagInner(name: string, k: nat)
    requires TagName(name) && 0 < k < |Open(name)|
    ensures Open(name)[k] != '<'
  {
    if k <= |name| {
      OpenChar(name, k - 1);
    }
  }

  lemma MiddleChar(p: string, q: string, rest: string, i: nat)
    requires |p| <= i < |p| + |q|
    ensures i < |p + (q + rest)| && (p + (q + rest))[i] == q[i - |p|]
  {
  }

  /** No tag but this one starts inside an item. */
  lemma NothingInside(p: string, x: Item, rest: string, tag: string, i: nat)
    requires Clean(x) && TagName(tag) && x != Tag(tag) && |p| <= i < |p| + |Piece(x)|
    ensures !At(p + (Piece(x) + rest), Open(tag), i)
  {
    hide At, Open;
    MiddleChar(p, Piece(x), rest, i);
    var s := p + (Piece(x) + rest);
    match x
    case Tag(name) =>
      if i == |p| {
        OtherTag(p, name, rest, tag);
      } else {
        TagInner(name, i - |p|);
        NotThere(s, tag, i);
      }
    case Chars(text) => NotThere(s, tag, i);
  }

  /** A search from the start of an item other than the tag goes on behind it. */
  lemma FindPasses(p: string, x: Item, rest: string, tag: string)
    requires Clean(x) && TagName(tag) && x != Tag(tag)
    ensures Find(p + (Piece(x) + rest), Open(tag), |p|) == Find(p + (Piece(x) + rest), Open(tag), |p| + |Piece(x)|)
  {
    hide *;
    forall i | |p| <= i < |p| + |Piece(x)| ensures !At(p + (Piece(x) + rest), Open(tag), i) {
      NothingInside(p, x, rest, tag, i);
    }
    SkipFind(p + (Piece(x) + rest), Open(tag), |p|, |p| + |Piece(x)|);
  }

  lemma FindHere(p: string, rest: string, tag: string)
    ensures Find(p + (Open(tag) + rest), Open(tag), |p|) == Some(|p|)
  {
    hide Find, Open;
    var s := p + (Open(tag) + rest);
    assert s[|p|..|p| + |Open(tag)|] == Open(tag);
    FindIs(s, Open(tag), |p|, |p|);
  }

  lemma FindNothing(p: string, tag: string)
    ensures Find(p, Open(tag), |p|) == None
  {
  }

  /** Where an item starts in the text. */
  function Place(items: seq<Item>, j: nat): nat
    requires j <= |items|
  {
    |Render(items[..j])|
  }

  lemma PlaceStep(items: seq<Item>, j: nat)
    requires items != [] && j < |items|
    ensures Place(items, j + 1) == |Piece(items[0])| + Place(items[1..], j)
    ensures Place(items, 0) == 0
  {
    assert items[..j + 1][1..] == items[1..][..j];
  }

  /** Searching for a tag's text finds the tag. */
  lemma {:induction false} FindTagIs(p: string, items: seq<Item>, tag: string)
    requires AllClean(items) && TagName(tag)
    ensures FirstTag(items, tag) == |items| ==> Find(p + Render(items), Open(tag), |p|) == None
    ensures FirstTag(items, tag) < |items| ==>
      Find(p + Render(items), Open(tag), |p|) == Some(|p| + Place(items, FirstTag(items, tag)))
    decreases |items|
  {
    hide Find, Open, Clean, Piece, TagName, Place;
    if items == [] {
      assert p + Render(items) == p;
      FindNothing(p, tag);
    } else {
      var x, rest := items[0], items[1..];
      PlaceStep(items, FirstTag(rest, tag));
      if x == Tag(tag) {
        OpenPiece(tag);
        FindHere(p, Render(rest), tag);
      } else {
        FindPasses(p, x, Render(rest), tag);
        FindTagIs(p + Piece(x), rest, tag);
        assert (p + Piece(x)) + Render(rest) == p + (Piece(x) + Render(rest));
      }
    }
  }

  lemma OpenPiece(tag: string)
    ensures Piece(Tag(tag)) == Open(tag)
  {
  }

  // ----- the matching close tag -----

  /** The loader's scan: from `scan` with `depth` tags open, the close tag that brings the depth to zero. */
  function ScanClose(xml: string, scan: nat, depth: nat, tag: string): (r: Option<nat>)
    requires depth > 0
    ensures r.Some? ==> scan <= r.value && r.value + |tag| + 3 <= |xml|
    decreases |xml| - scan
  {
    var nextOpen := Find(xml, Open(tag), scan);
    var nextClose := Find(xml, Open("/" + tag), scan);
    if nextClose.None? then None
    else if nextOpen.Some? && nextOpen.value < nextClose.value then
      ScanClose(xml, nextOpen.value + |Open(tag)|, depth + 1, tag)
    else if depth == 1 then nextClose
    else ScanClose(xml, nextClose.value + |Open("/" + tag)|, depth - 1, tag)
  }

  function MatchingClose(xml: string, openPos: nat, tag: string): (r: Option<nat>)
    ensures r.Some? ==> openPos + |Open(tag)| <= r.value && r.value + |tag| + 3 <= |xml|
  {
    ScanClose(xml, openPos + |Open(tag)|, 1, tag)
  }

  lemma ScanStep(xml: string, scan: nat, depth: nat, tag: string)
    requires depth > 0
    ensures var o, c := Find(xml, Open(tag), scan), Find(xml, Open("/" + tag), scan);
            ScanClose(xml, scan, depth, tag)
            == if c.None? then None
               else if o.Some? && o.value < c.value then ScanClose(xml, o.value + |Open(tag)|, depth + 1, tag)
               else if depth == 1 then c
               else ScanClose(xml, c.value + |Open("/" + tag)|, depth - 1, tag)
  {
    hide Find, Open;
  }

  method FindMatchingClose(xml: string, openPos: nat, tag: string) returns (found: bool, at: nat)
    ensures found == MatchingClose(xml, openPos, tag).Some?
    ensures found ==> at == MatchingClose(xml, openPos, tag).value
  {
    hide Find, ScanClose;
    var open, close := Open(tag), Open("/" + tag);
    var scan: nat := openPos + |open|;
    var depth: nat := 1;
    while true
      invariant depth > 0
      invariant ScanClose(xml, scan, depth, tag) == MatchingClose(xml, openPos, tag)
      decreases |xml| - scan
    {
      ScanStep(xml, scan, depth, tag);
      var nextOpen := Find(xml, open, scan);
      var nextClose := Find(xml, close, scan);
      if nextClose.None? {
        return false, 0;
      }
      FoundWithin(xml, close, scan);
      FoundWithin(xml, open, scan);
      if nextOpen.Some? && nextOpen.value < nextClose.value {
        depth := depth + 1;
        scan := nextOpen.value + |open|;
      } else if depth == 1 {
        return true, nextClose.value;
      } else {
        depth := depth - 1;
        scan := nextClose.value + |close|;
      }
    }
  }

  lemma FoundWithin(s: string, p: string, from: nat)
    ensures Find(s, p, from).Some? ==> from <= Find(s, p, from).value && Find(s, p, from).value + |p| <= |s|
  {
  }

  /** The same over items: how many come before the close tag that matches, or |items|. */
  function TagScan(items: seq<Item>, depth: nat, tag: string): (j: nat)
    requires depth > 0
    ensures j <= |items|
    ensures j < |items| ==> items[j] == Tag("/" + tag)
    decreases |items|
  {
    if items == [] then 0
    else if items[0] == Tag(tag) then 1 + TagScan(items[1..], depth + 1, tag)
    else if items[0] == Tag("/" + tag) then if depth == 1 then 0 else 1 + TagScan(items[1..], depth - 1, tag)
    else 1 + TagScan(items[1..], depth, tag)
  }

  lemma CloseName(tag: string)
    ensures TagName(tag) ==> TagName("/" + tag)
    ensures tag != "/" + tag
  {
    assert |tag| < |"/" + tag|;
  }

  lemma {:induction false} NoCloseNoScan(items: seq<Item>, depth: nat, tag: string)
    requires depth > 0 && FirstTag(items, "/" + tag) == |items|
    ensures TagScan(items, depth, tag) == |items|
    decreases |items|
  {
    if items != [] {
      NoCloseNoScan(items[1..], if items[0] == Tag(tag) then depth + 1 else depth, tag);
    }
  }

  /** The open tags after an item. */
  function DepthAfter(x: Item, depth: nat, tag: string): int {
    if x == Tag(tag) then depth + 1 else if x == Tag("/" + tag) then depth - 1 else depth
  }

  lemma FindFromHead(p: string, x: Item, rest: string, tag: string)
    requires Clean(x) && TagName(tag)
    ensures var xml := p + (Piece(x) + rest);
            Find(xml, Open(tag), |p|) == if x == Tag(tag) then Some(|p|) else Find(xml, Open(tag), |p| + |Piece(x)|)
  {
    hide Find, Open, Clean, TagName;
    if x == Tag(tag) {
      FindHere(p, rest, tag);
    } else {
      FindPasses(p, x, rest, tag);
    }
  }

  /** Scanning from an item is scanning from the next one. */
  lemma HeadStep(xml: string, at: nat, next: nat, x: Item, depth: nat, tag: string)
    requires depth > 0 && DepthAfter(x, depth, tag) > 0 && next == at + |Piece(x)|
    requires Find(xml, Open(tag), at) == if x == Tag(tag) then Some(at) else Find(xml, Open(tag), next)
    requires Find(xml, Open("/" + tag), at) == if x == Tag("/" + tag) then Some(at) else Find(xml, Open("/" + tag), next)
    requires Find(xml, Open("/" + tag), at).Some?
    ensures ScanClose(xml, at, depth, tag) == ScanClose(xml, next, DepthAfter(x, depth, tag), tag)
  {
    hide *;
    CloseName(tag);
    DepthIs(x, depth, tag);
    ScanStep(xml, at, depth, tag);
    PieceNotEmpty(x, tag);
    FoundWithin(xml, Open(tag), next);
    FoundWithin(xml, Open("/" + tag), next);
    if DepthAfter(x, depth, tag) == depth {
      ScanStep(xml, next, depth, tag);
    }
  }

  lemma HeadFinds(p: string, items: seq<Item>, tag: string)
    requires items != [] && AllClean(items) && TagName(tag)
    ensures var xml, next := p + Render(items), |p| + |Piece(items[0])|;
            Find(xml, Open(tag), |p|) == if items[0] == Tag(tag) then Some(|p|) else Find(xml, Open(tag), next)
    ensures p + Render(items) == (p + Piece(items[0])) + Render(items[1..])
  {
    hide Find, Open, TagName, Clean, Piece;
    FindFromHead(p, items[0], Render(items[1..]), tag);
    assert p + (Piece(items[0]) + Render(items[1..])) == (p + Piece(items[0])) + Render(items[1..]);
  }

  lemma TagScanStep(items: seq<Item>, depth: nat, tag: string)
    requires items != [] && depth > 0
    ensures var d := DepthAfter(items[0], depth, tag);
            TagScan(items, depth, tag) == if d == 0 then 0 else 1 + TagScan(items[1..], d, tag)
    ensures DepthAfter(items[0], depth, tag) == 0 ==> depth == 1 && items[0] == Tag("/" + tag)
  {
    CloseName(tag);
  }

  /** The scan over the text is the scan over the items. */
  lemma {:induction false} ScanCloseIs(p: string, items: seq<Item>, depth: nat, tag: string)
    requires depth > 0 && AllClean(items) && TagName(tag)
    ensures TagScan(items, depth, tag) == |items| ==> ScanClose(p + Render(items), |p|, depth, tag) == None
    ensures TagScan(items, depth, tag) < |items| ==>
      ScanClose(p + Render(items), |p|, depth, tag) == Some(|p| + Place(items, TagScan(items, depth, tag)))
    decreases |items|
  {
    hide Find, Open, Clean, TagName, ScanClose, Place, Piece, Render, TagScan, FirstTag, DepthAfter;
    CloseName(tag);
    FindTagIs(p, items, "/" + tag);
    if FirstTag(items, "/" + tag) == |items| {
      NoCloseNoScan(items, depth, tag);
      ScanStep(p + Render(items), |p|, depth, tag);
    } else {
      var x, rest := items[0], items[1..];
      var d := DepthAfter(x, depth, tag);
      HeadFinds(p, items, tag);
      HeadFinds(p, items, "/" + tag);
      TagScanStep(items, depth, tag);
      if d == 0 {
        ScanEndsAt(p + Render(items), |p|, |p| + |Piece(x)|, tag);
        PlaceStep(items, 0);
      } else {
        DepthIs(x, depth, tag);
        HeadStep(p + Render(items), |p|, |p| + |Piece(x)|, x, depth, tag);
        ScanCloseIs(p + Piece(x), rest, d, tag);
        PlaceStep(items, TagScan(rest, d, tag));
      }
    }
  }

  lemma ScanEndsAt(xml: string, at: nat, next: nat, tag: string)
    requires at <= next && Find(xml, Open("/" + tag), at) == Some(at)
    requires Find(xml, Open(tag), at) == Find(xml, Open(tag), next)
    ensures ScanClose(xml, at, 1, tag) == Some(at)
  {
    hide Find, Open, ScanClose;
    ScanStep(xml, at, 1, tag);
    FoundWithin(xml, Open(tag), next);
  }

  lemma DepthIs(x: Item, depth: nat, tag: string)
    ensures DepthAfter(x, depth, tag) == if x == Tag(tag) then depth + 1 else if x == Tag("/" + tag) then depth - 1 else depth
  {
  }

  lemma PieceNotEmpty(x: Item, tag: string)
    ensures x == Tag(tag) ==> |Piece(x)| == |Open(tag)| > 0
    ensures x == Tag("/" + tag) ==> |Piece(x)| == |Open("/" + tag)| > 0
  {
  }
}
