/** Saving a table as JSON and loading it again. */
module JsonRoundTrip {
  import opened Text
  import opened Words
  import opened JsonParser
  import opened JsonText
  import opened JsonTable

  // ----- which numbers a double keeps -----

  /** A whole number survives exactly when it is a multiple of the power of two its size leaves no digits below. */
  lemma RoundKeepsIff(n: nat)
    ensures RoundNat(n) == n <==> n % Pow2(Excess(n)) == 0
  {
    var p := Pow2(Excess(n));
    assert n == n / p * p + n % p;
    assert (n / p + 1) * p == n / p * p + p;
  }

  lemma SmallSurvives(n: int)
    requires -0x20_0000_0000_0000 < n < 0x20_0000_0000_0000
    ensures RoundInt(n) == n
  {
    RoundKeepsIff(if n < 0 then -n else n);
  }

  /** One more than 2^53 is the first to be changed. */
  lemma FirstLost()
    ensures RoundNat(0x20_0000_0000_0001) == 0x20_0000_0000_0000
  {
    assert Excess(0x20_0000_0000_0001) == 1 && Pow2(1) == 2;
  }

  // ----- one object -----

  lemma MemberFound(slots: seq<Slot>, ws: string, gap: string, close: string, i: nat)
    requires i < |slots| && OneKey(slots, i)
    ensures GetField(ToJson(Obj(Present(slots, ws, gap), close)), slots[i].key)
         == if slots[i].node.None? then None else Some(ToJson(slots[i].node.value))
  {
    hide KeyName;
    SlotFound(slots, ws, gap, i);
  }

  lemma EntryKeys(e: Entry, i: nat)
    ensures |EntrySlots(e)| == 22 && (i < 22 ==> OneKey(EntrySlots(e), i))
  {
    hide Given, TextIf, Digits;
  }

  /** What an entry is after saving and loading: a group loses its address, type and value, and a negative
      parent becomes none. */
  function BackEntry(e: Entry): LoadedEntry {
    LoadedEntry(e.id, e.description, if e.isGroup then 0 else e.address, if e.isGroup then INT32_TYPE else e.valueType,
      if e.isGroup then "" else e.value, e.active, e.showAsHex, e.showAsSigned, e.freezeMode, e.isGroup, e.collapsed,
      e.autoAsmScript, e.luaScript, e.color, e.dropdownList, e.hotkeyKeys, e.increaseHotkeyKeys, e.setValueHotkeyKeys,
      e.setValueHotkeyValue, e.decreaseHotkeyKeys, e.hotkeyStep, if e.parentId >= 0 then e.parentId else -1)
  }

  predicate EntryFits(e: Entry) {
    Int32(e.id) && Int32(e.valueType) && Int32(e.freezeMode) && Int32(e.parentId)
  }

  lemma EntryMember(e: Entry, i: nat)
    requires i < 22
    ensures |EntrySlots(e)| == 22
    ensures GetField(ToJson(Compact(EntrySlots(e))), EntrySlots(e)[i].key)
         == if EntrySlots(e)[i].node.None? then None else Some(ToJson(EntrySlots(e)[i].node.value))
  {
    hide EntrySlots, OneKey, KeyName;
    EntryKeys(e, i);
    MemberFound(EntrySlots(e), "", "", "", i);
  }

  lemma EntryNumbers(e: Entry, o: Json, d: Decimals)
    requires EntryFits(e) && o == ToJson(Compact(EntrySlots(e)))
    ensures IntField(o, KId, 0, d) == e.id && IntField(o, KFreezeMode, 0, d) == e.freezeMode
    ensures IntField(o, KParent, -1, d) == if e.parentId >= 0 then e.parentId else -1
    ensures TypeField(o, d) == if e.isGroup then INT32_TYPE else e.valueType
    ensures SizeField(o, KAddr, 0, d) == if e.isGroup then 0 else e.address
  {
    hide GetField, Compact, StoiAnyBase, Stoull, Digits, RoundInt;
    EntryMember(e, 0);
    EntryMember(e, 2);
    EntryMember(e, 3);
    EntryMember(e, 8);
    EntryMember(e, 21);
    SmallSurvives(e.id);
    SmallSurvives(e.valueType);
    SmallSurvives(e.freezeMode);
    SmallSurvives(e.parentId);
    StoullOfHexLiteral(e.address);
  }

  lemma EntryFlags(e: Entry, o: Json, d: Decimals)
    requires o == ToJson(Compact(EntrySlots(e)))
    ensures BoolField(o, KActive, d) == e.active && BoolField(o, KShowAsHex, d) == e.showAsHex
    ensures (if GetField(o, KShowAsSigned).Some? then BoolField(o, KShowAsSigned, d) else true) == e.showAsSigned
    ensures BoolField(o, KGroup, d) == e.isGroup && BoolField(o, KCollapsed, d) == e.collapsed
  {
    hide GetField, Compact, Digits;
    EntryMember(e, 5);
    EntryMember(e, 6);
    EntryMember(e, 7);
    EntryMember(e, 9);
    EntryMember(e, 10);
  }

  lemma EntryTexts(e: Entry, o: Json)
    requires o == ToJson(Compact(EntrySlots(e)))
    ensures StringField(o, KDesc) == e.description && StringField(o, KValue) == (if e.isGroup then "" else e.value)
    ensures StringField(o, KAsm) == e.autoAsmScript && StringField(o, KLua) == e.luaScript
    ensures StringField(o, KColor) == e.color && StringField(o, KDropdown) == e.dropdownList
    ensures StringField(o, KHotkeys) == e.hotkeyKeys && StringField(o, KIncreaseHotkey) == e.increaseHotkeyKeys
  {
    hide GetField, Compact, Digits;
    EntryMember(e, 1);
    EntryMember(e, 4);
    EntryMember(e, 11);
    EntryMember(e, 12);
    EntryMember(e, 13);
    EntryMember(e, 14);
    EntryMember(e, 15);
    EntryMember(e, 16);
  }

  lemma EntryHotkeys(e: Entry, o: Json)
    requires o == ToJson(Compact(EntrySlots(e)))
    ensures StringField(o, KSetValueHotkey) == e.setValueHotkeyKeys && StringField(o, KSetValueHotkeyValue) == e.setValueHotkeyValue
    ensures StringField(o, KDecreaseHotkey) == e.decreaseHotkeyKeys && StringField(o, KHotkeyStep) == e.hotkeyStep
  {
    hide GetField, Compact, Digits;
    EntryMember(e, 17);
    EntryMember(e, 18);
    EntryMember(e, 19);
    EntryMember(e, 20);
  }

  lemma EntryReadsBack(e: Entry, d: Decimals)
    requires EntryFits(e)
    ensures ReadEntry(ToJson(Compact(EntrySlots(e))), d) == BackEntry(e)
  {
    hide GetField, Compact, EntrySlots, IntField, BoolField, StringField, TypeField, SizeField, ToJson;
    var o := ToJson(Compact(EntrySlots(e)));
    EntryNumbers(e, o, d);
    EntryFlags(e, o, d);
    EntryTexts(e, o);
    EntryHotkeys(e, o);
  }

  lemma CompactIsObject(slots: seq<Slot>)
    ensures ToJson(Compact(slots)).JObject?
  {
  }

  function BackEntries(entries: seq<Entry>): seq<LoadedEntry> {
    if entries == [] then [] else [BackEntry(entries[0])] + BackEntries(entries[1..])
  }

  lemma {:induction false} EntriesReadBack(entries: seq<Entry>, d: Decimals)
    requires forall e :: e in entries ==> EntryFits(e)
    ensures ReadEntries(ToItems(EntryElems(entries)), d) == BackEntries(entries)
    decreases |entries|
  {
    hide ReadEntry, EntrySlots, Compact, ToJson, BackEntry, EntryFits;
    if entries != [] {
      CompactIsObject(EntrySlots(entries[0]));
      EntryReadsBack(entries[0], d);
      EntriesReadBack(entries[1..], d);
      ItemsStep(entries);
      var items := ToItems(EntryElems(entries));
      assert items[1..] == ToItems(EntryElems(entries[1..]));
    }
  }

  lemma ItemsStep(entries: seq<Entry>)
    requires entries != []
    ensures ToItems(EntryElems(entries)) == [ToJson(Compact(EntrySlots(entries[0])))] + ToItems(EntryElems(entries[1..]))
  {
    hide EntrySlots, Compact, ToJson;
  }

  // ----- structures and comments -----

  function BackField(f: StructField): LoadedField {
    LoadedField(f.name, RoundNat(f.offset), f.valueType, RoundNat(f.size), f.display, f.nested)
  }

  lemma FieldMember(f: StructField, i: nat)
    requires i < 6
    ensures |FieldSlots(f)| == 6
    ensures GetField(ToJson(Compact(FieldSlots(f))), FieldSlots(f)[i].key)
         == if FieldSlots(f)[i].node.None? then None else Some(ToJson(FieldSlots(f)[i].node.value))
  {
    hide KeyName, Given, TextIf;
    MemberFound(FieldSlots(f), "", "", "", i);
  }

  lemma FieldNumbers(f: StructField, o: Json, d: Decimals)
    requires Int32(f.valueType) && o == ToJson(Compact(FieldSlots(f)))
    ensures SizeField(o, KOffset, 0, d) == RoundNat(f.offset) && SizeField(o, KSize, 4, d) == RoundNat(f.size)
    ensures TypeField(o, d) == f.valueType
  {
    hide GetField, Compact, StoiAnyBase, Stoull, RoundNat;
    FieldMember(f, 1);
    FieldMember(f, 2);
    FieldMember(f, 3);
    SmallSurvives(f.valueType);
  }

  lemma FieldTexts(f: StructField, o: Json)
    requires o == ToJson(Compact(FieldSlots(f)))
    ensures StringField(o, KName) == f.name && StringField(o, KDisplay) == f.display && StringField(o, KNested) == f.nested
  {
    hide GetField, Compact;
    FieldMember(f, 0);
    FieldMember(f, 4);
    FieldMember(f, 5);
  }

  lemma FieldReadsBack(f: StructField, d: Decimals)
    requires Int32(f.valueType)
    ensures ReadField(ToJson(Compact(FieldSlots(f))), d) == BackField(f)
  {
    hide GetField, Compact, FieldSlots, StringField, TypeField, SizeField, ToJson, RoundNat;
    var o := ToJson(Compact(FieldSlots(f)));
    FieldNumbers(f, o, d);
    FieldTexts(f, o);
  }

  function BackFields(fields: seq<StructField>): seq<LoadedField> {
    if fields == [] then [] else [BackField(fields[0])] + BackFields(fields[1..])
  }

  lemma {:induction false} FieldsReadBack(fields: seq<StructField>, d: Decimals)
    requires forall f :: f in fields ==> Int32(f.valueType)
    ensures ReadFields(ToItems(FieldElems(fields)), d) == BackFields(fields)
    decreases |fields|
  {
    hide ReadField, FieldSlots, Compact, ToJson, BackField;
    if fields != [] {
      CompactIsObject(FieldSlots(fields[0]));
      FieldReadsBack(fields[0], d);
      FieldsReadBack(fields[1..], d);
      var items := ToItems(FieldElems(fields));
      assert items[1..] == ToItems(FieldElems(fields[1..]));
    }
  }

  function BackStructure(s: Structure): LoadedStructure {
    LoadedStructure(s.name, RoundNat(s.size), BackFields(s.fields))
  }

  predicate StructureFits(s: Structure) {
    forall f :: f in s.fields ==> Int32(f.valueType)
  }

  lemma StructureMember(s: Structure, i: nat)
    requires i < 3
    ensures |StructureSlots(s)| == 3
    ensures GetField(ToJson(Compact(StructureSlots(s))), StructureSlots(s)[i].key)
         == if StructureSlots(s)[i].node.None? then None else Some(ToJson(StructureSlots(s)[i].node.value))
  {
    hide KeyName, FieldElems;
    MemberFound(StructureSlots(s), "", "", "", i);
  }

  lemma StructureReadsBack(s: Structure, d: Decimals)
    requires StructureFits(s)
    ensures var o := ToJson(Compact(StructureSlots(s)));
            LoadedStructure(StringField(o, KName), SizeField(o, KSize, 0, d), ReadFields(ItemsOf(o, KFields), d)) == BackStructure(s)
  {
    hide GetField, Compact, Stoull, RoundNat, FieldElems, ReadFields, BackFields;
    StructureMember(s, 0);
    StructureMember(s, 1);
    StructureMember(s, 2);
    FieldsReadBack(s.fields, d);
  }

  function BackStructures(structures: seq<Structure>): seq<LoadedStructure> {
    if structures == [] then [] else [BackStructure(structures[0])] + BackStructures(structures[1..])
  }

  lemma {:induction false} StructuresReadBack(structures: seq<Structure>, d: Decimals)
    requires forall s :: s in structures ==> StructureFits(s)
    ensures ReadStructures(ToItems(StructureElems(structures)), d) == BackStructures(structures)
    decreases |structures|
  {
    hide StructureSlots, Compact, ToJson, BackStructure, StringField, SizeField, ItemsOf, ReadFields, StructureFits;
    if structures != [] {
      CompactIsObject(StructureSlots(structures[0]));
      StructureReadsBack(structures[0], d);
      StructuresReadBack(structures[1..], d);
      var items := ToItems(StructureElems(structures));
      assert items[1..] == ToItems(StructureElems(structures[1..]));
    }
  }

  lemma CommentMember(c: Comment, i: nat)
    requires i < 3
    ensures |CommentSlots(c)| == 3
    ensures GetField(ToJson(Compact(CommentSlots(c))), CommentSlots(c)[i].key)
         == if CommentSlots(c)[i].node.None? then None else Some(ToJson(CommentSlots(c)[i].node.value))
  {
    hide KeyName, Given, TextIf;
    MemberFound(CommentSlots(c), "", "", "", i);
  }

  lemma CommentReadsBack(c: Comment)
    ensures var o := ToJson(Compact(CommentSlots(c)));
            Comment(StringField(o, KAddress), StringField(o, KComment), StringField(o, KLabel)) == c
  {
    hide GetField, Compact;
    CommentMember(c, 0);
    CommentMember(c, 1);
    CommentMember(c, 2);
  }

  /** The comments that have an address. */
  function BackComments(comments: seq<Comment>): seq<Comment> {
    if comments == [] then []
    else (if comments[0].address != "" then [comments[0]] else []) + BackComments(comments[1..])
  }

  lemma {:induction false} CommentsReadBack(comments: seq<Comment>)
    ensures ReadComments(ToItems(CommentElems(comments))) == BackComments(comments)
    decreases |comments|
  {
    hide CommentSlots, Compact, ToJson, StringField;
    if comments != [] {
      CompactIsObject(CommentSlots(comments[0]));
      CommentReadsBack(comments[0]);
      CommentsReadBack(comments[1..]);
      var items := ToItems(CommentElems(comments));
      assert items[1..] == ToItems(CommentElems(comments[1..]));
    }
  }

  // ----- the text is within the parser's limits -----

  lemma EntrySlotsGood(e: Entry)
    requires EntryFits(e)
    ensures GoodSlots(EntrySlots(e), 1)
  {
    hide Digits, Good, Given, TextIf, EntryFits;
    FitsMeans(e);
    LeavesGood();
    OptionalGood();
  }

  lemma FitsMeans(e: Entry)
    requires EntryFits(e)
    ensures Int32(e.id) && Int32(e.valueType) && Int32(e.freezeMode) && Int32(e.parentId)
  {
  }

  lemma OptionalGood()
    ensures forall b: bool, v: Node :: Good(v, 1) && Given(b, v).Some? ==> Good(Given(b, v).value, 1)
    ensures forall s: string :: TextIf(s).Some? ==> Good(TextIf(s).value, 1)
  {
    hide Good;
    LeavesGood();
  }

  /** Texts and flags fit anywhere, and so do 32-bit numbers. */
  lemma LeavesGood()
    ensures forall s: string :: Good(Str(s), 1)
    ensures forall b: bool :: Good(Flag(b), 1)
    ensures forall n: int :: Int32(n) ==> Good(Num(n), 1)
  {
  }

  lemma FieldSlotsGood(f: StructField)
    requires Int32(f.valueType)
    ensures GoodSlots(FieldSlots(f), 1)
  {
  }

  lemma CompactGood(slots: seq<Slot>, room: nat)
    requires GoodSlots(slots, room)
    ensures Good(Compact(slots), room + 1)
  {
    NoBlank();
    PresentIsGood(slots, "", "", room);
  }

  lemma Spaces()
    ensures Blank("") && Blank("\n") && Blank("\n  ") && Blank("\n    ") && Blank(" ")
  {
  }

  lemma {:induction false} EntryElemsGood(entries: seq<Entry>)
    requires forall e :: e in entries ==> EntryFits(e)
    ensures GoodElems(EntryElems(entries), 2)
    decreases |entries|
  {
    hide EntrySlots, Compact, Good, EntryFits, Blank;
    Spaces();
    if entries != [] {
      EntrySlotsGood(entries[0]);
      CompactGood(EntrySlots(entries[0]), 1);
      EntryElemsGood(entries[1..]);
    }
  }

  lemma {:induction false} FieldElemsGood(fields: seq<StructField>)
    requires forall f :: f in fields ==> Int32(f.valueType)
    ensures GoodElems(FieldElems(fields), 2)
    decreases |fields|
  {
    hide FieldSlots, Compact, Good, Blank;
    Spaces();
    if fields != [] {
      FieldSlotsGood(fields[0]);
      CompactGood(FieldSlots(fields[0]), 1);
      FieldElemsGood(fields[1..]);
    }
  }

  lemma StructureSlotsGood(s: Structure)
    requires StructureFits(s)
    ensures GoodSlots(StructureSlots(s), 3)
  {
    hide FieldElems, Blank;
    Spaces();
    FieldElemsGood(s.fields);
  }

  lemma {:induction false} StructureElemsGood(structures: seq<Structure>)
    requires forall s :: s in structures ==> StructureFits(s)
    ensures GoodElems(StructureElems(structures), 4)
    decreases |structures|
  {
    hide StructureSlots, Compact, Good, Blank, StructureFits;
    Spaces();
    if structures != [] {
      StructureSlotsGood(structures[0]);
      CompactGood(StructureSlots(structures[0]), 3);
      StructureElemsGood(structures[1..]);
    }
  }

  lemma {:induction false} CommentElemsGood(comments: seq<Comment>)
    ensures GoodElems(CommentElems(comments), 2)
    decreases |comments|
  {
    hide Compact, Good, Blank;
    Spaces();
    if comments != [] {
      CommentSlotsGood(comments[0]);
      CompactGood(CommentSlots(comments[0]), 1);
      CommentElemsGood(comments[1..]);
    }
  }

  lemma CommentSlotsGood(c: Comment)
    ensures GoodSlots(CommentSlots(c), 1)
  {
  }

  /** More room is no harm. */
  lemma {:induction false} MoreRoom(v: Node, a: nat, b: nat)
    requires Good(v, a) && a <= b
    ensures Good(v, b)
    decreases v
  {
    hide Blank, Fits64;
    match v
    case Str(_) =>
    case Num(_) =>
    case Flag(_) =>
    case Arr(elems, _) => MoreRoomElems(elems, a - 1, b - 1);
    case Obj(fields, _) => MoreRoomFields(fields, a - 1, b - 1);
  }

  lemma {:induction false} MoreRoomElems(e: Elems, a: nat, b: nat)
    requires GoodElems(e, a) && a <= b
    ensures GoodElems(e, b)
    decreases e
  {
    hide Blank, Good;
    if e.Elem? {
      MoreRoom(e.node, a, b);
      MoreRoomElems(e.rest, a, b);
    }
  }

  lemma {:induction false} MoreRoomFields(f: Fields, a: nat, b: nat)
    requires GoodFields(f, a) && a <= b
    ensures GoodFields(f, b)
    decreases f
  {
    hide Blank, Good;
    if f.Field? {
      MoreRoom(f.node, a, b);
      MoreRoomFields(f.rest, a, b);
    }
  }

  // ----- the table -----

  predicate TableFits(t: Table) {
    (forall e :: e in t.entries ==> EntryFits(e)) && (forall s :: s in t.structures ==> StructureFits(s))
  }

  function BackTable(t: Table): LoadedTable {
    LoadedTable(t.game, t.version, t.author, t.comment, t.luaScript,
                BackStructures(t.structures), BackComments(t.comments), BackEntries(t.entries))
  }

  lemma TableSlotsGood(t: Table)
    requires TableFits(t)
    ensures GoodSlots(TableSlots(t), 5)
  {
    hide EntryElems, StructureElems, CommentElems, Blank, EntryFits, StructureFits;
    Spaces();
    EntryElemsGood(t.entries);
    MoreRoomElems(EntryElems(t.entries), 2, 4);
    StructureElemsGood(t.structures);
    CommentElemsGood(t.comments);
    MoreRoomElems(CommentElems(t.comments), 2, 4);
  }

  lemma TableMember(t: Table, i: nat)
    requires i < 8
    ensures |TableSlots(t)| == 8
    ensures GetField(ToJson(Obj(Present(TableSlots(t), "\n  ", " "), "\n")), TableSlots(t)[i].key)
         == if TableSlots(t)[i].node.None? then None else Some(ToJson(TableSlots(t)[i].node.value))
  {
    hide KeyName, EntryElems, StructureElems, CommentElems;
    MemberFound(TableSlots(t), "\n  ", " ", "\n", i);
  }

  /** What the writer writes the parser accepts, within its cap on nesting. */
  lemma SavedTextParses(t: Table)
    requires TableFits(t)
    ensures Parse(SaveJson(t)) == Some(ToJson(Obj(Present(TableSlots(t), "\n  ", " "), "\n")))
  {
    hide TableSlots, Parse, NodeText, ToJson, Present, Good, Blank, EntryFits, StructureFits;
    Spaces();
    TableSlotsGood(t);
    PresentIsGood(TableSlots(t), "\n  ", " ", 5);
    RootGood(TableSlots(t));
    DocumentReads(Obj(Present(TableSlots(t), "\n  ", " "), "\n"), "\n");
  }

  lemma RootGood(slots: seq<Slot>)
    requires GoodFields(Present(slots, "\n  ", " "), 5)
    ensures Good(Obj(Present(slots, "\n  ", " "), "\n"), MAX_DEPTH)
  {
    Spaces();
    hide Present, Blank, GoodFields;
    MoreRoomFields(Present(slots, "\n  ", " "), 5, MAX_DEPTH - 1);
  }

  lemma TableTexts(t: Table, o: Json)
    requires o == ToJson(Obj(Present(TableSlots(t), "\n  ", " "), "\n"))
    ensures o.JObject?
    ensures StringField(o, KGame) == t.game && StringField(o, KVersion) == t.version && StringField(o, KAuthor) == t.author
    ensures StringField(o, KComment) == t.comment && StringField(o, KLuaScript) == t.luaScript
    ensures ItemsOf(o, KStructures) == ToItems(StructureElems(t.structures))
    ensures ItemsOf(o, KDisassemblerComments) == ToItems(CommentElems(t.comments))
    ensures ItemsOf(o, KEntries) == ToItems(EntryElems(t.entries))
  {
    hide GetField, Present, EntryElems, StructureElems, CommentElems, ToItems;
    TableMember(t, 0);
    TableMember(t, 1);
    TableMember(t, 2);
    TableMember(t, 3);
    TableMember(t, 4);
    TableMember(t, 5);
    TableMember(t, 6);
    TableMember(t, 7);
  }

  /** Loading a saved table gives every written field back: all texts and flags, addresses and 32-bit numbers
      as they were, sizes and offsets rounded to the nearest double. */
  lemma JsonReadsBack(t: Table, d: Decimals)
    requires TableFits(t)
    ensures LoadJson(SaveJson(t), d) == Some(BackTable(t))
  {
    hide TableSlots, Parse, ToJson, Present, SaveJson, StringField, ItemsOf, EntryElems, StructureElems, CommentElems,
      ReadStructures, ReadComments, ReadEntries, EntryFits, StructureFits;
    SavedTextParses(t);
    var o := ToJson(Obj(Present(TableSlots(t), "\n  ", " "), "\n"));
    TableTexts(t, o);
    StructuresReadBack(t.structures, d);
    CommentsReadBack(t.comments);
    EntriesReadBack(t.entries, d);
  }
}
