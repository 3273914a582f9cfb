/** Reading one element's text out of a record: the loader's first-match search, and the escaping of texts. */
module XmlFields {
  import opened Text
  import opened XmlTokens

  // ----- escaping -----

  function EscapeChar(c: char): string {
    if c == '&' then "&amp;" else if c == '<' then "&lt;" else if c == '>' then "&gt;" else if c == '"' then "&quot;" else [c]
  }

  function Escape(s: string): string {
    if s == "" then "" else EscapeChar(s[0]) + Escape(s[1..])
  }

  method XmlEscape(s: string) returns (out: string)
    ensures out == Escape(s)
  {
    hide EscapeChar;
    out := "";
    var i := 0;
    while i < |s|
      invariant i <= |s| && out + Escape(s[i..]) == Escape(s)
    {
      assert s[i..][1..] == s[i + 1..];
      out := out + EscapeChar(s[i]);
      i := i + 1;
    }
    assert s[|s|..] == "";
  }

  /** The character an entity at the front stands for and its length; anything else stands for itself. */
  function Entity(s: string): (r: (char, nat))
    requires s != ""
    ensures 0 < r.1 <= |s|
  {
    if "&lt;" <= s then ('<', 4)
    else if "&gt;" <= s then ('>', 4)
    else if "&amp;" <= s then ('&', 5)
    else if "&quot;" <= s then ('"', 6)
    else if "&apos;" <= s then ('\'', 6)
    else (s[0], 1)
  }

  function Unescape(s: string): string
    decreases |s|
  {
    if s == "" then "" else [Entity(s).0] + Unescape(s[Entity(s).1..])
  }

  method XmlUnescape(s: string) returns (out: string)
    ensures out == Unescape(s)
  {
    hide Entity;
    out := "";
    var i := 0;
    while i < |s|
      invariant i <= |s| && out + Unescape(s[i..]) == Unescape(s)
    {
      var e := Entity(s[i..]);
      assert s[i..][e.1..] == s[i + e.1..];
      out := out + [e.0];
      i := i + e.1;
    }
    assert s[|s|..] == "";
  }

  lemma EntityOfEscaped(c: char, rest: string)
    ensures EscapeChar(c) + rest != "" && Entity(EscapeChar(c) + rest) == (c, |EscapeChar(c)|)
  {
    var s := EscapeChar(c) + rest;
    assert EscapeChar(c) <= s;
    assert s[0] == EscapeChar(c)[0];
    if |EscapeChar(c)| > 1 {
      assert s[1] == EscapeChar(c)[1];
    }
  }

  /** Unescaping undoes escaping, whatever text follows. */
  lemma {:induction false} UnescapeEscaped(s: string, rest: string)
    ensures Unescape(Escape(s) + rest) == s + Unescape(rest)
    decreases |s|
  {
    hide EscapeChar, Entity;
    if s == "" {
      assert Escape(s) + rest == rest;
    } else {
      var tail := Escape(s[1..]) + rest;
      EntityOfEscaped(s[0], tail);
      assert Escape(s) + rest == EscapeChar(s[0]) + tail;
      assert (EscapeChar(s[0]) + tail)[|EscapeChar(s[0])|..] == tail;
      UnescapeEscaped(s[1..], rest);
    }
  }

  lemma {:induction false} EscapedIsClean(s: string)
    ensures '<' !in Escape(s) && '>' !in Escape(s)
  {
    if s != "" {
      EscapedIsClean(s[1..]);
      CharIsClean(s[0]);
    }
  }

  lemma CharIsClean(c: char)
    ensures '<' !in EscapeChar(c) && '>' !in EscapeChar(c)
  {
  }

  // ----- getTag -----

  /** The text between the first such open tag and the next such close tag; empty when either is missing. */
  function GetTag(xml: string, tag: string): string {
    var start := Find(xml, Open(tag), 0);
    if start.None? then ""
    else
      var from := start.value + |Open(tag)|;
      var end := Find(xml, Open("/" + tag), from);
      FoundWithin(xml, Open("/" + tag), from);
      if end.None? then "" else xml[from..end.value]
  }

  function GetItems(items: seq<Item>, tag: string): Option<seq<Item>> {
    var j := FirstTag(items, tag);
    if j == |items| then None
    else
      var rest := items[j + 1..];
      var k := FirstTag(rest, "/" + tag);
      if k == |rest| then None else Some(rest[..k])
  }

  lemma SplitAt(items: seq<Item>, j: nat)
    requires j <= |items|
    ensures Render(items) == Render(items[..j]) + Render(items[j..]) && |Render(items[..j])| == Place(items, j)
  {
    RenderAppend(items[..j], items[j..]);
    assert items[..j] + items[j..] == items;
  }

  lemma GetTagFrom(xml: string, tag: string, from: nat)
    requires Find(xml, Open(tag), 0).Some? && Find(xml, Open(tag), 0).value + |Open(tag)| == from
    ensures var end := Find(xml, Open("/" + tag), from);
            end.Some? ==> from <= end.value <= |xml|
    ensures var end := Find(xml, Open("/" + tag), from);
            GetTag(xml, tag) == if end.None? then "" else xml[from..end.value]
  {
    hide Find, Open;
    FoundWithin(xml, Open("/" + tag), from);
  }

  lemma BodyIs(p: string, rest: seq<Item>, k: nat)
    requires k <= |rest|
    ensures var xml := p + Render(rest);
            |p| + Place(rest, k) <= |xml| && xml[|p|..|p| + Place(rest, k)] == Render(rest[..k])
  {
    hide Render, Place;
    SplitAt(rest, k);
  }

  lemma GetTagIs(items: seq<Item>, tag: string)
    requires AllClean(items) && TagName(tag)
    ensures GetTag(Render(items), tag) == if GetItems(items, tag).None? then "" else Render(GetItems(items, tag).value)
  {
    hide Find, Open, Clean, TagName, Place, Render, GetTag;
    FindTagIs("", items, tag);
    assert "" + Render(items) == Render(items);
    if FirstTag(items, tag) == |items| {
      GetTagNothing(Render(items), tag);
    } else {
      GetTagThere(items, tag);
    }
  }

  lemma GetTagNothing(xml: string, tag: string)
    requires Find(xml, Open(tag), 0).None?
    ensures GetTag(xml, tag) == ""
  {
  }

  lemma GetTagThere(items: seq<Item>, tag: string)
    requires AllClean(items) && TagName(tag) && FirstTag(items, tag) < |items|
    requires Find(Render(items), Open(tag), 0) == Some(Place(items, FirstTag(items, tag)))
    ensures var rest := items[FirstTag(items, tag) + 1..];
            var k := FirstTag(rest, "/" + tag);
            GetTag(Render(items), tag) == if k == |rest| then "" else Render(rest[..k])
  {
    hide *;
    CloseName(tag);
    var j := FirstTag(items, tag);
    var rest := items[j + 1..];
    var p := Render(items[..j]) + Open(tag);
    AfterTag(items, j, tag);
    GetTagFrom(Render(items), tag, |p|);
    RestIsClean(items, j + 1);
    FindTagIs(p, rest, "/" + tag);
    BodyIs(p, rest, FirstTag(rest, "/" + tag));
  }

  lemma RestIsClean(items: seq<Item>, j: nat)
    requires AllClean(items) && j <= |items|
    ensures AllClean(items[j..]) && AllClean(items[..j])
  {
    hide Clean;
  }

  lemma AfterTag(items: seq<Item>, j: nat, tag: string)
    requires j < |items| && items[j] == Tag(tag)
    ensures Render(items) == Render(items[..j]) + Open(tag) + Render(items[j + 1..])
    ensures |Render(items[..j]) + Open(tag)| == Place(items, j) + |Open(tag)|
  {
    hide Open;
    SplitAt(items, j);
    assert items[j..][1..] == items[j + 1..];
    OpenPiece(tag);
  }
}
