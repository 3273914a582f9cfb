/** Cheat tables in the JSON format: what is written, what is read, and what survives the round trip. */
module JsonTable {
  import opened Text
  import opened Words
  import opened JsonParser
  import opened JsonText

  datatype Entry = Entry(
    id: int, description: string, address: U64, valueType: int, value: string,
    active: bool, showAsHex: bool, showAsSigned: bool, freezeMode: int, isGroup: bool, collapsed: bool,
    autoAsmScript: string, luaScript: string, color: string, dropdownList: string, hotkeyKeys: string,
    increaseHotkeyKeys: string, setValueHotkeyKeys: string, setValueHotkeyValue: string,
    decreaseHotkeyKeys: string, hotkeyStep: string, parentId: int)

  datatype StructField = StructField(
    name: string, offset: U64, valueType: int, size: U64, display: string, nested: string)

  datatype Structure = Structure(name: string, size: U64, fields: seq<StructField>)

  datatype Comment = Comment(address: string, comment: string, symbol: string)

  datatype Table = Table(
    game: string, version: string, author: string, comment: string, luaScript: string,
    structures: seq<Structure>, comments: seq<Comment>, entries: seq<Entry>)

  /** The value type of a record that says nothing about it: a 32-bit integer. */
  const INT32_TYPE := 2

  // ----- keys -----

  datatype Key =
    | KGame | KVersion | KAuthor | KComment | KLuaScript | KStructures | KDisassemblerComments | KEntries
    | KName | KSize | KFields | KOffset | KDisplay | KNested | KAddress | KLabel
    | KId | KDesc | KAddr | KType | KValue | KActive | KShowAsHex | KShowAsSigned | KFreezeMode | KGroup | KCollapsed
    | KAsm | KLua | KColor | KDropdown | KHotkeys | KIncreaseHotkey | KSetValueHotkey | KSetValueHotkeyValue
    | KDecreaseHotkey | KHotkeyStep | KParent

  function KeyName(k: Key): string {
    match k
    case KGame => "game"
    case KVersion => "version"
    case KAuthor => "author"
    case KComment => "comment"
    case KLuaScript => "luaScript"
    case KStructures => "structures"
    case KDisassemblerComments => "disassemblerComments"
    case KEntries => "entries"
    case KName => "name"
    case KSize => "size"
    case KFields => "fields"
    case KOffset => "offset"
    case KDisplay => "display"
    case KNested => "nested"
    case KAddress => "address"
    case KLabel => "label"
    case KId => "id"
    case KDesc => "desc"
    case KAddr => "addr"
    case KType => "type"
    case KValue => "value"
    case KActive => "active"
    case KShowAsHex => "showAsHex"
    case KShowAsSigned => "showAsSigned"
    case KFreezeMode => "freezeMode"
    case KGroup => "group"
    case KCollapsed => "collapsed"
    case KAsm => "asm"
    case KLua => "lua"
    case KColor => "color"
    case KDropdown => "dropdown"
    case KHotkeys => "hotkeys"
    case KIncreaseHotkey => "increaseHotkey"
    case KSetValueHotkey => "setValueHotkey"
    case KSetValueHotkeyValue => "setValueHotkeyValue"
    case KDecreaseHotkey => "decreaseHotkey"
    case KHotkeyStep => "hotkeyStep"
    case KParent => "parent"
  }

  /** Length and the first two letters tell the keys apart. */
  function Mark(name: string): int
    requires |name| >= 2
  {
    |name| * 65536 + name[0] as int * 256 + name[1] as int
  }

  function Code(k: Key): int {
    match k
    case KGame => 288609
    case KVersion => 489061
    case KAuthor => 418165
    case KComment => 484207
    case KLuaScript => 617589
    case KStructures => 684916
    case KDisassemblerComments => 1336425
    case KEntries => 484718
    case KName => 290401
    case KSize => 291689
    case KFields => 419433
    case KOffset => 421734
    case KDisplay => 484457
    case KNested => 421477
    case KAddress => 483684
    case KLabel => 355425
    case KId => 158052
    case KDesc => 287845
    case KAddr => 287076
    case KType => 291961
    case KValue => 357985
    case KActive => 418147
    case KShowAsHex => 619368
    case KShowAsSigned => 815976
    case KFreezeMode => 681586
    case KGroup => 354162
    case KCollapsed => 615279
    case KAsm => 221555
    case KLua => 224373
    case KColor => 353135
    case KDropdown => 550002
    case KHotkeys => 485487
    case KIncreaseHotkey => 944494
    case KSetValueHotkey => 947045
    case KSetValueHotkeyValue => 1274725
    case KDecreaseHotkey => 943205
    case KHotkeyStep => 682095
    case KParent => 421985
  }

  lemma KeyCode(k: Key)
    ensures |KeyName(k)| >= 2 && Mark(KeyName(k)) == Code(k)
  {
  }

  lemma KeysDiffer(a: Key, b: Key)
    ensures KeyName(a) == KeyName(b) ==> a == b
  {
    hide KeyName, Mark;
    KeyCode(a);
    KeyCode(b);
  }

  // ----- objects with optional members -----

  datatype Slot = Slot(key: Key, node: Option<Node>)

  /** The members that are present, each after `ws` and with `gap` behind its colon. */
  function Present(slots: seq<Slot>, ws: string, gap: string): Fields {
    if slots == [] then NoFields
    else if slots[0].node.None? then Present(slots[1..], ws, gap)
    else Field(ws, KeyName(slots[0].key), gap, slots[0].node.value, Present(slots[1..], ws, gap))
  }

  function FirstMember(members: seq<Member>, key: string): Option<Json> {
    if members == [] then None
    else if members[0].key == key then Some(members[0].value)
    else FirstMember(members[1..], key)
  }

  function GetField(o: Json, key: Key): Option<Json> {
    if o.JObject? then FirstMember(o.members, KeyName(key)) else None
  }

  predicate OneKey(slots: seq<Slot>, i: nat)
    requires i < |slots|
  {
    forall j :: 0 <= j < |slots| && j != i ==> slots[j].key != slots[i].key
  }

  lemma {:induction false} NoSlot(slots: seq<Slot>, ws: string, gap: string, key: Key)
    requires forall j :: 0 <= j < |slots| ==> slots[j].key != key
    ensures FirstMember(ToMembers(Present(slots, ws, gap)), KeyName(key)) == None
    decreases |slots|
  {
    hide KeyName, ToJson;
    if slots != [] {
      KeysDiffer(slots[0].key, key);
      NoSlot(slots[1..], ws, gap, key);
    }
  }

  /** A member is found under its key, or nothing is when it was left out. */
  lemma {:induction false} SlotFound(slots: seq<Slot>, ws: string, gap: string, i: nat)
    requires i < |slots| && OneKey(slots, i)
    ensures FirstMember(ToMembers(Present(slots, ws, gap)), KeyName(slots[i].key))
         == if slots[i].node.None? then None else Some(ToJson(slots[i].node.value))
    decreases |slots|
  {
    hide KeyName, ToJson;
    if i == 0 {
      NoSlot(slots[1..], ws, gap, slots[0].key);
    } else {
      KeysDiffer(slots[0].key, slots[i].key);
      SlotFound(slots[1..], ws, gap, i - 1);
    }
  }

  predicate GoodSlots(slots: seq<Slot>, room: nat) {
    forall i :: 0 <= i < |slots| && slots[i].node.Some? ==> Good(slots[i].node.value, room)
  }

  lemma {:induction false} PresentIsGood(slots: seq<Slot>, ws: string, gap: string, room: nat)
    requires Blank(ws) && Blank(gap) && GoodSlots(slots, room)
    ensures GoodFields(Present(slots, ws, gap), room)
    decreases |slots|
  {
    hide Good, Blank;
    if slots != [] {
      PresentIsGood(slots[1..], ws, gap, room);
    }
  }

  // ----- writing -----

  function Given(b: bool, v: Node): Option<Node> {
    if b then Some(v) else None
  }

  function TextIf(s: string): Option<Node> {
    Given(s != "", Str(s))
  }

  function EntrySlots(e: Entry): seq<Slot> {
    [ Slot(KId, Some(Num(e.id))),
      Slot(KDesc, Some(Str(e.description))),
      Slot(KAddr, Given(!e.isGroup, Str("0x" + Digits(e.address, 16)))),
      Slot(KType, Given(!e.isGroup, Num(e.valueType))),
      Slot(KValue, Given(!e.isGroup, Str(e.value))),
      Slot(KActive, Given(e.active, Flag(true))),
      Slot(KShowAsHex, Given(e.showAsHex, Flag(true))),
      Slot(KShowAsSigned, Given(!e.showAsSigned, Flag(false))),
      Slot(KFreezeMode, Given(e.freezeMode != 0, Num(e.freezeMode))),
      Slot(KGroup, Given(e.isGroup, Flag(true))),
      Slot(KCollapsed, Given(e.collapsed, Flag(true))),
      Slot(KAsm, TextIf(e.autoAsmScript)),
      Slot(KLua, TextIf(e.luaScript)),
      Slot(KColor, TextIf(e.color)),
      Slot(KDropdown, TextIf(e.dropdownList)),
      Slot(KHotkeys, TextIf(e.hotkeyKeys)),
      Slot(KIncreaseHotkey, TextIf(e.increaseHotkeyKeys)),
      Slot(KSetValueHotkey, TextIf(e.setValueHotkeyKeys)),
      Slot(KSetValueHotkeyValue, TextIf(e.setValueHotkeyValue)),
      Slot(KDecreaseHotkey, TextIf(e.decreaseHotkeyKeys)),
      Slot(KHotkeyStep, TextIf(e.hotkeyStep)),
      Slot(KParent, Given(e.parentId >= 0, Num(e.parentId))) ]
  }

  function FieldSlots(f: StructField): seq<Slot> {
    [ Slot(KName, Some(Str(f.name))),
      Slot(KOffset, Some(Num(f.offset))),
      Slot(KType, Some(Num(f.valueType))),
      Slot(KSize, Some(Num(f.size))),
      Slot(KDisplay, TextIf(f.display)),
      Slot(KNested, TextIf(f.nested)) ]
  }

  function StructureSlots(s: Structure): seq<Slot> {
    [ Slot(KName, Some(Str(s.name))),
      Slot(KSize, Some(Num(s.size))),
      Slot(KFields, Some(Arr(FieldElems(s.fields), ""))) ]
  }

  function CommentSlots(c: Comment): seq<Slot> {
    [ Slot(KAddress, Some(Str(c.address))),
      Slot(KComment, TextIf(c.comment)),
      Slot(KLabel, TextIf(c.symbol)) ]
  }

  function Compact(slots: seq<Slot>): Node {
    Obj(Present(slots, "", ""), "")
  }

  function FieldElems(fields: seq<StructField>): Elems {
    if fields == [] then NoElems else Elem("", Compact(FieldSlots(fields[0])), FieldElems(fields[1..]))
  }

  function StructureElems(structures: seq<Structure>): Elems {
    if structures == [] then NoElems
    else Elem("\n    ", Compact(StructureSlots(structures[0])), StructureElems(structures[1..]))
  }

  function CommentElems(comments: seq<Comment>): Elems {
    if comments == [] then NoElems else Elem("", Compact(CommentSlots(comments[0])), CommentElems(comments[1..]))
  }

  function EntryElems(entries: seq<Entry>): Elems {
    if entries == [] then NoElems else Elem("\n    ", Compact(EntrySlots(entries[0])), EntryElems(entries[1..]))
  }

  function TableSlots(t: Table): seq<Slot> {
    [ Slot(KGame, Some(Str(t.game))),
      Slot(KVersion, Some(Str(t.version))),
      Slot(KAuthor, Some(Str(t.author))),
      Slot(KComment, Some(Str(t.comment))),
      Slot(KLuaScript, Some(Str(t.luaScript))),
      Slot(KStructures, Some(Arr(StructureElems(t.structures), "\n  "))),
      Slot(KDisassemblerComments, Some(Arr(CommentElems(t.comments), ""))),
      Slot(KEntries, Some(Arr(EntryElems(t.entries), "\n  "))) ]
  }

  function SaveJson(t: Table): string {
    NodeText(Obj(Present(TableSlots(t), "\n  ", " "), "\n"), "\n")
  }

  // ----- reading -----

  function StringField(o: Json, k: Key): string {
    var v := GetField(o, k);
    if v.Some? && v.value.JString? then v.value.s else ""
  }

  /** The double a number with a fraction or an exponent is read into: cut to a whole number, and whether
      it is zero. */
  datatype Double = Double(whole: int, zero: bool)

  type Decimals = map<string, Double>

  function DoubleOf(token: string, decimals: Decimals): Double {
    if token in decimals then decimals[token] else Double(0, true)
  }

  function Whole(v: Json, decimals: Decimals): int {
    match v
    case JNumber(n) => n
    case JDecimal(token) => DoubleOf(token, decimals).whole
    case _ => 0
  }

  predicate IsNumber(v: Json) {
    v.JNumber? || v.JDecimal?
  }

  /** std::stoi with the base taken from the text. */
  function StoiAnyBase(s: string): Option<int> {
    var t := s[LeadingSpaces(s)..];
    var sign := if t != "" && (t[0] == '+' || t[0] == '-') then 1 else 0;
    var m := Magnitude(t[sign..], 0);
    if m.None? then None
    else
      var n := Signed(sign == 1 && t[0] == '-', m.value.value);
      if Int32(n) then Some(n) else None
  }

  function BoolField(o: Json, k: Key, decimals: Decimals): bool {
    var v := GetField(o, k);
    if v.None? then false
    else if v.value.JBool? then v.value.b
    else if v.value.JNumber? then v.value.n != 0
    else if v.value.JDecimal? then !DoubleOf(v.value.token, decimals).zero
    else v.value.JString? && (v.value.s == "true" || v.value.s == "1")
  }

  function IntField(o: Json, k: Key, default_: int, decimals: Decimals): int {
    var v := GetField(o, k);
    if v.None? then default_
    else if IsNumber(v.value) then Whole(v.value, decimals)
    else if v.value.JString? && StoiAnyBase(v.value.s).Some? then StoiAnyBase(v.value.s).value
    else default_
  }

  function SizeField(o: Json, k: Key, default_: int, decimals: Decimals): int {
    var v := GetField(o, k);
    if v.None? then default_
    else if IsNumber(v.value) then Whole(v.value, decimals)
    else if v.value.JString? && Stoull(v.value.s, 0).Some? then Stoull(v.value.s, 0).value.value
    else default_
  }

  function TypeField(o: Json, decimals: Decimals): int {
    var v := GetField(o, KType);
    if v.None? then INT32_TYPE
    else if IsNumber(v.value) then Whole(v.value, decimals)
    else if !v.value.JString? then INT32_TYPE
    else if v.value.s == "byte" then 0
    else if v.value.s == "i16" then 1
    else if v.value.s == "i32" then 2
    else if v.value.s == "i64" then 3
    else if v.value.s == "float" then 4
    else if v.value.s == "double" then 5
    else if v.value.s == "string" then 6
    else if v.value.s == "aob" then 8
    else if StoiAnyBase(v.value.s).Some? then StoiAnyBase(v.value.s).value
    else INT32_TYPE
  }

  /** The names of value types in older tables, and what has no type that can be read. */
  lemma TypeNamesRead(o: Json, decimals: Decimals)
    requires GetField(o, KType).Some? && GetField(o, KType).value.JString?
    ensures var name, t := GetField(o, KType).value.s, TypeField(o, decimals);
            && (name == "byte" ==> t == 0) && (name == "i16" ==> t == 1) && (name == "i32" ==> t == 2)
            && (name == "i64" ==> t == 3) && (name == "float" ==> t == 4) && (name == "double" ==> t == 5)
            && (name == "string" ==> t == 6) && (name == "aob" ==> t == 8)
  {
    assert "byte"[0] == 'b' && "i16"[1] == '1' && "i32"[1] == '3' && "i64"[1] == '6' && "float"[0] == 'f';
    assert "double"[0] == 'd' && "string"[0] == 's' && "aob"[0] == 'a' && "i16"[0] == 'i' && "i32"[0] == 'i' && "i64"[0] == 'i';
  }

  /** Entries as loaded: addresses, sizes and offsets are whatever number was read. */
  datatype LoadedEntry = LoadedEntry(
    id: int, description: string, address: int, valueType: int, value: string,
    active: bool, showAsHex: bool, showAsSigned: bool, freezeMode: int, isGroup: bool, collapsed: bool,
    autoAsmScript: string, luaScript: string, color: string, dropdownList: string, hotkeyKeys: string,
    increaseHotkeyKeys: string, setValueHotkeyKeys: string, setValueHotkeyValue: string,
    decreaseHotkeyKeys: string, hotkeyStep: string, parentId: int)

  datatype LoadedField = LoadedField(
    name: string, offset: int, valueType: int, size: int, display: string, nested: string)

  datatype LoadedStructure = LoadedStructure(name: string, size: int, fields: seq<LoadedField>)

  datatype LoadedTable = LoadedTable(
    game: string, version: string, author: string, comment: string, luaScript: string,
    structures: seq<LoadedStructure>, comments: seq<Comment>, entries: seq<LoadedEntry>)

  function ReadEntry(o: Json, d: Decimals): LoadedEntry {
    LoadedEntry(
      IntField(o, KId, 0, d), StringField(o, KDesc), SizeField(o, KAddr, 0, d), TypeField(o, d), StringField(o, KValue),
      BoolField(o, KActive, d), BoolField(o, KShowAsHex, d),
      if GetField(o, KShowAsSigned).Some? then BoolField(o, KShowAsSigned, d) else true,
      IntField(o, KFreezeMode, 0, d), BoolField(o, KGroup, d), BoolField(o, KCollapsed, d),
      StringField(o, KAsm), StringField(o, KLua), StringField(o, KColor), StringField(o, KDropdown), StringField(o, KHotkeys),
      StringField(o, KIncreaseHotkey), StringField(o, KSetValueHotkey), StringField(o, KSetValueHotkeyValue),
      StringField(o, KDecreaseHotkey), StringField(o, KHotkeyStep), IntField(o, KParent, -1, d))
  }

  function ReadField(o: Json, d: Decimals): LoadedField {
    LoadedField(StringField(o, KName), SizeField(o, KOffset, 0, d), TypeField(o, d), SizeField(o, KSize, 4, d),
                StringField(o, KDisplay), StringField(o, KNested))
  }

  function ItemsOf(o: Json, k: Key): seq<Json> {
    var v := GetField(o, k);
    if v.Some? && v.value.JArray? then v.value.items else []
  }

  function ReadFields(items: seq<Json>, d: Decimals): seq<LoadedField> {
    if items == [] then []
    else (if items[0].JObject? then [ReadField(items[0], d)] else []) + ReadFields(items[1..], d)
  }

  function ReadStructures(items: seq<Json>, d: Decimals): seq<LoadedStructure> {
    if items == [] then []
    else (if items[0].JObject? then
            [LoadedStructure(StringField(items[0], KName), SizeField(items[0], KSize, 0, d), ReadFields(ItemsOf(items[0], KFields), d))]
          else []) + ReadStructures(items[1..], d)
  }

  /** Comments without an address are dropped. */
  function ReadComments(items: seq<Json>): seq<Comment> {
    if items == [] then []
    else (if items[0].JObject? && StringField(items[0], KAddress) != "" then
            [Comment(StringField(items[0], KAddress), StringField(items[0], KComment), StringField(items[0], KLabel))]
          else []) + ReadComments(items[1..])
  }

  function ReadEntries(items: seq<Json>, d: Decimals): seq<LoadedEntry> {
    if items == [] then []
    else (if items[0].JObject? then [ReadEntry(items[0], d)] else []) + ReadEntries(items[1..], d)
  }

  function LoadJson(text: string, d: Decimals): Option<LoadedTable> {
    var root := Parse(text);
    if root.None? || !root.value.JObject? then None
    else
      var o := root.value;
      Some(LoadedTable(
        StringField(o, KGame), StringField(o, KVersion), StringField(o, KAuthor), StringField(o, KComment), StringField(o, KLuaScript),
        ReadStructures(ItemsOf(o, KStructures), d), ReadComments(ItemsOf(o, KDisassemblerComments)),
        ReadEntries(ItemsOf(o, KEntries), d)))
  }
}
