/** One cheat-table record as XML: the fields the writer puts between its tags, and the loader's reading of them. */
module TableRecord {
  import opened Text
  import opened XmlTokens
  import opened XmlFields

  /** The fields whose text stands alone between their tags. */
  datatype Field =
    | ID | Description | GroupHeader | Collapsed | Activated | ShowAsHex | ShowAsSigned | FreezeMode
    | AssemblerScript | LuaScript | Color

  function Name(f: Field): string {
    match f
    case ID => "ID"
    case Description => "Description"
    case GroupHeader => "GroupHeader"
    case Collapsed => "Collapsed"
    case Activated => "Activated"
    case ShowAsHex => "ShowAsHex"
    case ShowAsSigned => "ShowAsSigned"
    case FreezeMode => "freezeMode"
    case AssemblerScript => "AssemblerScript"
    case LuaScript => "LuaScript"
    case Color => "Color"
  }

  /** `data` is what a non-group record writes about its address, type and value; `tail` its options, choices
      and hotkeys. */
  datatype Record = Record(
    id: int, description: string, isGroup: bool, collapsed: bool, data: seq<Item>,
    active: bool, showAsHex: bool, showAsSigned: bool, freezeMode: int,
    autoAsmScript: string, luaScript: string, color: string, tail: seq<Item>)

  /** What the loader restores. */
  datatype Loaded = Loaded(
    id: int, parentId: int, description: string, isGroup: bool, collapsed: bool,
    active: bool, showAsHex: bool, showAsSigned: bool, freezeMode: int,
    autoAsmScript: string, luaScript: string, color: string)

  datatype Part = Text(field: Field, text: Option<string>) | Raw(items: seq<Item>)

  function FlagText(b: bool, text: string): Option<string> {
    if b then Some(text) else None
  }

  /** The parts of a record in the order they are written. */
  function Parts(r: Record): seq<Part> {
    [ Text(ID, Some(Decimal(r.id))),
      Text(Description, Some("\"" + Escape(r.description) + "\"")),
      Text(GroupHeader, FlagText(r.isGroup, "1")),
      Text(Collapsed, FlagText(r.isGroup && r.collapsed, "1")),
      Raw(if r.isGroup then [] else r.data),
      Text(Activated, FlagText(r.active, "1")),
      Text(ShowAsHex, FlagText(r.showAsHex, "1")),
      Text(ShowAsSigned, FlagText(!r.showAsSigned, "0")),
      Text(FreezeMode, FlagText(r.freezeMode != 0, Decimal(r.freezeMode))),
      Text(AssemblerScript, FlagText(r.autoAsmScript != "", Escape(r.autoAsmScript))),
      Text(LuaScript, FlagText(r.luaScript != "", Escape(r.luaScript))),
      Text(Color, FlagText(r.color != "", r.color)),
      Raw(r.tail) ]
  }

  const INDENT := "      "

  function PartItems(p: Part): seq<Item> {
    match p
    case Raw(items) => items
    case Text(f, text) =>
      if text.None? then [] else [Chars(INDENT), Tag(Name(f)), Chars(text.value), Tag("/" + Name(f)), Chars("\n")]
  }

  function Flatten(parts: seq<Part>): seq<Item> {
    if parts == [] then [] else PartItems(parts[0]) + Flatten(parts[1..])
  }

  // ----- reading -----

  function StripQuotes(s: string): string {
    if |s| >= 2 && s[0] == '"' && s[|s| - 1] == '"' then s[1..|s| - 1] else s
  }

  function ReadRecord(own: string, parentId: int): Loaded {
    var idStr := GetTag(own, Name(ID));
    var freeze := GetTag(own, Name(FreezeMode));
    Loaded(
      if idStr != "" then Atoi(idStr) else 0,
      parentId,
      StripQuotes(Unescape(GetTag(own, Name(Description)))),
      GetTag(own, Name(GroupHeader)) == "1",
      GetTag(own, Name(Collapsed)) == "1",
      GetTag(own, Name(Activated)) == "1",
      GetTag(own, Name(ShowAsHex)) == "1",
      GetTag(own, Name(ShowAsSigned)) != "0",
      if freeze != "" && Stoi(freeze).Some? then Stoi(freeze).value else 0,
      Unescape(GetTag(own, Name(AssemblerScript))),
      Unescape(GetTag(own, Name(LuaScript))),
      GetTag(own, Name(Color)))
  }

  /** What a record is after saving and loading: a record that is no group loses its collapsed mark. */
  function Restored(r: Record, parentId: int): Loaded {
    Loaded(r.id, parentId, r.description, r.isGroup, r.isGroup && r.collapsed, r.active, r.showAsHex, r.showAsSigned,
           r.freezeMode, r.autoAsmScript, r.luaScript, r.color)
  }

  // ----- names -----

  /** Length and first letter tell the names apart. */
  function Length(f: Field): nat {
    match f
    case ID => 2
    case Color => 5
    case FreezeMode => 10
    case Description => 11
    case GroupHeader => 11
    case ShowAsSigned => 12
    case AssemblerScript => 15
    case _ => 9
  }

  function Letter(f: Field): char {
    match f
    case ID => 'I'
    case Description => 'D'
    case GroupHeader => 'G'
    case Collapsed => 'C'
    case Activated => 'A'
    case ShowAsHex => 'S'
    case ShowAsSigned => 'S'
    case FreezeMode => 'f'
    case AssemblerScript => 'A'
    case LuaScript => 'L'
    case Color => 'C'
  }

  lemma NameShape(f: Field)
    ensures |Name(f)| == Length(f) && Name(f)[0] == Letter(f)
  {
  }

  lemma NamesAreTags(f: Field)
    ensures TagName(Name(f)) && TagName("/" + Name(f))
  {
    CloseName(Name(f));
    match f
    case ID =>
    case Description =>
    case GroupHeader =>
    case Collapsed =>
    case Activated =>
    case ShowAsHex =>
    case ShowAsSigned =>
    case FreezeMode =>
    case AssemblerScript =>
    case LuaScript =>
    case Color =>
  }

  lemma NamesDiffer(f: Field, g: Field)
    ensures Name(f) == Name(g) ==> f == g
    ensures Name(f) != "/" + Name(g)
    ensures TagName(Name(f)) && TagName("/" + Name(f))
  {
    hide Name, TagName;
    NameShape(f);
    NameShape(g);
    NamesAreTags(f);
    assert ("/" + Name(g))[0] == '/';
  }

  predicate Structural(name: string) {
    name == "CheatEntry" || name == "/CheatEntry" || name == "CheatEntries" || name == "/CheatEntries"
  }

  /** No record boundary among the items. */
  predicate StructFree(items: seq<Item>) {
    forall i :: 0 <= i < |items| && items[i].Tag? ==> !Structural(items[i].name)
  }

  /** No element that a search for a record's own fields would meet; identifiers and descriptions are
      searched for first of all, so later ones do not matter. */
  predicate FieldFree(items: seq<Item>) {
    forall i, f: Field :: 0 <= i < |items| && f != ID && f != Description ==> items[i] != Tag(Name(f))
  }

  predicate Inert(items: seq<Item>) {
    AllClean(items) && StructFree(items) && FieldFree(items)
  }

  predicate Writable(r: Record) {
    && Int32(r.id) && Int32(r.freezeMode) && '<' !in r.color
    && Inert(r.data) && Inert(r.tail)
  }

  // ----- finding a part -----

  predicate GoodPart(p: Part) {
    match p
    case Text(f, text) => text.Some? ==> '<' !in text.value
    case Raw(items) => AllClean(items) && FieldFree(items)
  }

  predicate GoodParts(parts: seq<Part>) {
    forall i :: 0 <= i < |parts| ==> GoodPart(parts[i])
  }

  lemma PartsAreGood(r: Record)
    requires Writable(r)
    ensures GoodParts(Parts(r)) && AllClean(Flatten(Parts(r))) && StructFree(Flatten(Parts(r)))
  {
    hide FieldFree, StructFree, AllClean, Escape, Decimal, Int32, Flatten;
    EscapedIsClean(r.description);
    EscapedIsClean(r.autoAsmScript);
    EscapedIsClean(r.luaScript);
    DecimalReads(r.id);
    DecimalReads(r.freezeMode);
    EmptyIsInert();
    PartsAreClean(Parts(r));
  }

  lemma EmptyIsInert()
    ensures Inert([])
  {
  }

  lemma PartIsClean(p: Part)
    requires GoodPart(p)
    ensures AllClean(PartItems(p))
    ensures (p.Raw? ==> StructFree(p.items)) ==> StructFree(PartItems(p))
  {
    match p
    case Raw(_) =>
    case Text(f, _) => NamesDiffer(f, f); NameIsPlain(f);
  }

  lemma NameIsPlain(f: Field)
    ensures !Structural(Name(f)) && !Structural("/" + Name(f))
  {
    hide Name;
    NameShape(f);
    var close := "/" + Name(f);
    assert |close| == Length(f) + 1 && close[1] == Letter(f);
    assert "/CheatEntry"[1] == 'C' && "/CheatEntries"[1] == 'C';
    assert |"/CheatEntry"| == 11 && |"/CheatEntries"| == 13;
  }

  lemma {:induction false} PartsAreClean(parts: seq<Part>)
    requires GoodParts(parts)
    ensures AllClean(Flatten(parts))
    ensures (forall i :: 0 <= i < |parts| && parts[i].Raw? ==> StructFree(parts[i].items)) ==> StructFree(Flatten(parts))
  {
    hide PartItems, GoodPart, Clean, Structural;
    if parts != [] {
      PartIsClean(parts[0]);
      PartsAreClean(parts[1..]);
    }
  }

  lemma {:induction false} FirstTagAfter(a: seq<Item>, b: seq<Item>, tag: string)
    requires Tag(tag) !in a
    ensures FirstTag(a + b, tag) == |a| + FirstTag(b, tag)
  {
    if a == [] {
      assert a + b == b;
    } else {
      assert (a + b)[1..] == a[1..] + b;
      FirstTagAfter(a[1..], b, tag);
    }
  }

  lemma GetItemsAfter(a: seq<Item>, b: seq<Item>, tag: string)
    requires Tag(tag) !in a
    ensures GetItems(a + b, tag) == GetItems(b, tag)
  {
    hide FirstTag;
    FirstTagAfter(a, b, tag);
    var j := FirstTag(b, tag);
    if j < |b| {
      assert (a + b)[|a| + j + 1..] == b[j + 1..];
    }
  }

  lemma OtherPart(p: Part, f: Field)
    requires GoodPart(p) && (p.Text? ==> p.field != f || p.text.None?) && (p.Raw? ==> f != ID && f != Description)
    ensures Tag(Name(f)) !in PartItems(p)
  {
    match p
    case Raw(items) =>
    case Text(g, _) =>
      NamesDiffer(f, g);
  }

  lemma ThisPart(f: Field, text: string, rest: seq<Item>)
    requires '<' !in text
    ensures GetItems(PartItems(Text(f, Some(text))) + rest, Name(f)) == Some([Chars(text)])
  {
    hide Name, Clean;
    NamesDiffer(f, f);
    var items := PartItems(Text(f, Some(text))) + rest;
    assert items[1..][0] == Tag(Name(f));
    assert FirstTag(items[1..], Name(f)) == 0;
    var after := items[2..];
    assert after[0] == Chars(text) && after[1..][0] == Tag("/" + Name(f));
    assert FirstTag(after[1..], "/" + Name(f)) == 0;
    assert after[..1] == [Chars(text)];
  }

  /** A part that stands alone under its name is found, also when it was left out. */
  lemma {:induction false} PartIsFound(parts: seq<Part>, k: nat, f: Field)
    requires GoodParts(parts) && k < |parts| && parts[k].Text? && parts[k].field == f
    requires forall i :: 0 <= i < |parts| && i != k ==> parts[i].Text? ==> parts[i].field != f
    requires forall i :: 0 <= i < |parts| && parts[i].Raw? ==> i > k || (f != ID && f != Description)
    requires parts[k].text.None? ==> f != ID && f != Description
    ensures GetItems(Flatten(parts), Name(f)) == if parts[k].text.None? then None else Some([Chars(parts[k].text.value)])
    decreases |parts|
  {
    hide Name, PartItems, GoodPart, GetItems;
    if k == 0 && parts[0].text.Some? {
      GoodText(parts[0]);
      ThisPart(f, parts[0].text.value, Flatten(parts[1..]));
    } else {
      OtherPart(parts[0], f);
      GetItemsAfter(PartItems(parts[0]), Flatten(parts[1..]), Name(f));
      if k == 0 {
        NoPart(parts[1..], f);
      } else {
        PartIsFound(parts[1..], k - 1, f);
      }
    }
  }

  lemma GoodText(p: Part)
    requires GoodPart(p) && p.Text? && p.text.Some?
    ensures '<' !in p.text.value
  {
  }

  lemma {:induction false} NoPart(parts: seq<Part>, f: Field)
    requires GoodParts(parts) && f != ID && f != Description
    requires forall i :: 0 <= i < |parts| ==> parts[i].Text? ==> parts[i].field != f
    ensures GetItems(Flatten(parts), Name(f)) == None
    decreases |parts|
  {
    hide Name, PartItems, GoodPart, GetItems;
    if parts == [] {
      NothingThere(Name(f));
    } else {
      OtherPart(parts[0], f);
      GetItemsAfter(PartItems(parts[0]), Flatten(parts[1..]), Name(f));
      NoPart(parts[1..], f);
    }
  }

  lemma NothingThere(tag: string)
    ensures GetItems([], tag) == None
  {
  }

  // ----- the whole record -----

  lemma {:induction false} FlattenAppend(parts: seq<Part>, post: seq<Item>)
    ensures Flatten(parts + [Raw(post)]) == Flatten(parts) + post
    decreases |parts|
  {
    hide PartItems;
    if parts == [] {
      FlattenOne(post);
    } else {
      FlattenAppend(parts[1..], post);
      assert (parts + [Raw(post)])[1..] == parts[1..] + [Raw(post)];
    }
  }

  lemma FlattenOne(post: seq<Item>)
    ensures Flatten([Raw(post)]) == post && [] + [Raw(post)] == [Raw(post)]
  {
    assert Flatten([Raw(post)][1..]) == [];
  }

  /** A record's own text: its tag, its fields, and what stands between them and the end or the child list. */
  function OwnItems(r: Record, post: seq<Item>): seq<Item> {
    [Tag("CheatEntry"), Chars("\n")] + (Flatten(Parts(r)) + post)
  }

  function Position(f: Field): (k: nat)
    ensures k < 13
  {
    match f
    case ID => 0
    case Description => 1
    case GroupHeader => 2
    case Collapsed => 3
    case Activated => 5
    case ShowAsHex => 6
    case ShowAsSigned => 7
    case FreezeMode => 8
    case AssemblerScript => 9
    case LuaScript => 10
    case Color => 11
  }

  lemma PositionIs(r: Record, f: Field)
    ensures var parts := Parts(r);
            |parts| == 13 && parts[Position(f)].Text? && parts[Position(f)].field == f &&
            (forall i :: 0 <= i < 13 && i != Position(f) && parts[i].Text? ==> parts[i].field != f) &&
            parts[4].Raw? && parts[12].Raw? && (forall i :: 0 <= i < 13 && parts[i].Raw? ==> i == 4 || i == 12) &&
            (parts[Position(f)].text.None? ==> f != ID && f != Description)
  {
    hide FlagText, Escape, Decimal;
  }

  function PartText(r: Record, f: Field): string {
    PositionIs(r, f);
    var t := Parts(r)[Position(f)].text;
    if t.None? then "" else t.value
  }

  lemma FieldReads(r: Record, post: seq<Item>, f: Field)
    requires Writable(r) && AllClean(post) && FieldFree(post)
    ensures GetTag(Render(OwnItems(r, post)), Name(f)) == PartText(r, f)
  {
    hide Name, Writable, Parts, Flatten, GetItems, GetTag, Render, FieldFree, Clean;
    PartsAreGood(r);
    PositionIs(r, f);
    var parts := Parts(r) + [Raw(post)];
    FlattenAppend(Parts(r), post);
    assert GoodPart(Raw(post));
    assert GoodParts(parts);
    PartIsFound(parts, Position(f), f);
    HeadHasNoField(f);
    GetItemsAfter([Tag("CheatEntry"), Chars("\n")], Flatten(Parts(r)) + post, Name(f));
    OwnIsClean(r, post);
    NamesDiffer(f, f);
    GetTagIs(OwnItems(r, post), Name(f));
    CharsOnly(PartText(r, f));
  }

  lemma CharsOnly(text: string)
    ensures Render([Chars(text)]) == text
  {
    assert Render([Chars(text)][1..]) == "";
    assert Piece(Chars(text)) + "" == text;
  }

  lemma HeadHasNoField(f: Field)
    ensures Tag(Name(f)) !in [Tag("CheatEntry"), Chars("\n")]
  {
    NameIsPlain(f);
  }

  lemma OwnIsClean(r: Record, post: seq<Item>)
    requires Writable(r) && AllClean(post)
    ensures AllClean(OwnItems(r, post))
  {
    hide Parts, Flatten;
    PartsAreGood(r);
    assert Clean(Tag("CheatEntry")) && Clean(Chars("\n"));
  }

  /** The loader reads back what the writer wrote. */
  lemma RecordReadsBack(r: Record, post: seq<Item>, parentId: int)
    requires Writable(r) && AllClean(post) && FieldFree(post)
    ensures ReadRecord(Render(OwnItems(r, post)), parentId) == Restored(r, parentId)
  {
    hide FieldFree, AllClean, OwnItems, Render, GetTag, Name, Escape, Unescape, Decimal, Atoi, Stoi, Inert;
    forall f: Field ensures GetTag(Render(OwnItems(r, post)), Name(f)) == PartText(r, f) {
      FieldReads(r, post, f);
    }
    DecimalReads(r.id);
    DecimalReads(r.freezeMode);
    TextReads(r.description);
    TextReads(r.autoAsmScript);
    TextReads(r.luaScript);
    NoText();
  }

  lemma PlainFirst(c: char, rest: string)
    requires c != '&'
    ensures Unescape([c] + rest) == [c] + Unescape(rest)
  {
    var s := [c] + rest;
    assert s[1..] == rest;
    NoPrefix(s, "&lt;");
    NoPrefix(s, "&gt;");
    NoPrefix(s, "&amp;");
    NoPrefix(s, "&quot;");
    NoPrefix(s, "&apos;");
  }

  lemma NoPrefix(s: string, p: string)
    requires s != "" && p != "" && s[0] != p[0]
    ensures !(p <= s)
  {
  }

  lemma QuotesStrip(s: string)
    ensures StripQuotes("\"" + (s + "\"")) == s
  {
    var q := "\"" + (s + "\"");
    assert q[|q| - 1] == '"' && q[1..|q| - 1] == s;
  }

  lemma TextReads(s: string)
    ensures Unescape(Escape(s)) == s
    ensures StripQuotes(Unescape("\"" + Escape(s) + "\"")) == s
  {
    hide Escape, Unescape, StripQuotes, Entity;
    NoText();
    UnescapeEscaped(s, "");
    assert Escape(s) + "" == Escape(s) && s + "" == s;
    PlainFirst('"', "");
    assert ['"'] + "" == "\"";
    assert Unescape("\"") == "\"";
    UnescapeEscaped(s, "\"");
    PlainFirst('"', Escape(s) + "\"");
    assert ['"'] + (Escape(s) + "\"") == "\"" + Escape(s) + "\"";
    assert Unescape("\"" + Escape(s) + "\"") == "\"" + (s + "\"");
    QuotesStrip(s);
  }

  lemma NoText()
    ensures Unescape("") == ""
  {
  }
}
