/** JSON text as it is written: values with the blanks around them, and the proof that the parser reads them. */
module JsonText {
  import opened Text
  import opened Words
  import opened JsonParser

  // ----- escaping -----

  function EscapeChar(c: char): string {
    if c == '\\' then "\\\\"
    else if c == '"' then "\\\""
    else if c == '\n' then "\\n"
    else if c == '\r' then "\\r"
    else if c == '\t' then "\\t"
    else [c]
  }

  function Escape(s: string): string {
    if s == "" then "" else EscapeChar(s[0]) + Escape(s[1..])
  }

  method JsonEscape(s: string) returns (out: string)
    ensures out == Escape(s)
  {
    hide EscapeChar;
    out := "";
    var i := 0;
    while i < |s|
      invariant i <= |s| && out + Escape(s[i..]) == Escape(s)
    {
      assert s[i..][1..] == s[i + 1..];
      out := out + EscapeChar(s[i]);
      i := i + 1;
    }
    assert s[|s|..] == "";
  }

  lemma CharReads(c: char, rest: string, value: string)
    ensures StringBody(EscapeChar(c) + rest, value) == StringBody(rest, value + [c])
  {
    hide UnicodeCode, UnicodeChar, StringBody;
    var s := EscapeChar(c) + rest;
    StringStep(s, value);
    assert s[0] == EscapeChar(c)[0];
    if |EscapeChar(c)| == 2 {
      assert s[1] == EscapeChar(c)[1] && s[2..] == rest;
    } else {
      assert s[1..] == rest;
    }
  }

  /** An escaped text reads back, whatever its characters. */
  lemma {:induction false} EscapedReads(s: string, rest: string, value: string)
    ensures StringBody(Escape(s) + ("\"" + rest), value) == Read(value + s, rest)
    decreases |s|
  {
    hide EscapeChar, StringBody;
    if s == "" {
      StringStep("\"" + rest, value);
      assert Escape(s) + ("\"" + rest) == "\"" + rest && ("\"" + rest)[1..] == rest && value + s == value;
    } else {
      CharReads(s[0], Escape(s[1..]) + ("\"" + rest), value);
      assert Escape(s) + ("\"" + rest) == EscapeChar(s[0]) + (Escape(s[1..]) + ("\"" + rest));
      EscapedReads(s[1..], rest, value + [s[0]]);
      assert value + s == value + [s[0]] + s[1..];
    }
  }

  // ----- numbers -----

  /** No character here would go on with a number. */
  predicate Stops(t: string) {
    t != "" ==> !IsDigit(t[0], 10) && t[0] != '.' && t[0] != 'e' && t[0] != 'E'
  }

  lemma {:induction false} DigitsStop(d: string, t: string)
    requires IsNumeral(d, 10) && (t != "" ==> !IsDigit(t[0], 10))
    ensures DigitPrefix(d + t, 10) == |d|
    decreases |d|
  {
    hide DigitValue;
    if d == "" {
      assert d + t == t;
    } else {
      assert IsDigit(d[0], 10);
      assert (d + t)[1..] == d[1..] + t;
      DigitsStop(d[1..], t);
    }
  }

  /** Numbers that a 64-bit word or a signed word can hold. */
  predicate Fits64(n: int) {
    -TWO_63 <= n < TWO_64
  }

  lemma RoundedBound(n: nat)
    requires n < TWO_64 + 1
    ensures RoundNat(n) < Pow2(1024)
  {
    var p := Pow2(Excess(n));
    ExcessFits(n);
    assert n == n / p * p + n % p;
    assert (n / p + 1) * p == n / p * p + p;
    LargePower();
  }

  lemma {:induction false} ExcessFits(n: nat)
    ensures Pow2(Excess(n)) <= n || Pow2(Excess(n)) == 1
    decreases n
  {
    if n >= 0x20_0000_0000_0000 {
      ExcessFits(n / 2);
    }
  }

  lemma LargePower()
    ensures 4 * TWO_64 <= Pow2(1024)
  {
    hide Pow2;
    Pow2Values();
    Pow2Sum(64, 960);
    Pow2AtLeast(960);
    Scale(TWO_64, 4, Pow2(960));
  }

  lemma Scale(x: nat, y: nat, z: nat)
    requires y <= z
    ensures x * y <= x * z
  {
    if y < z {
      OneMore(y, z, x);
    }
  }

  /** A number without fraction and exponent, given where its digits start and how many there are. */
  lemma WholeToken(s: string, sign: nat, n: nat, d: string, t: string)
    requires s != "" && sign == (if s[0] == '-' then 1 else 0) && sign + n <= |s| && n == Digits10(s[sign..]) > 0
    requires d == s[sign..][..n] && t == s[sign + n..] && IsNumeral(d, 10) && RoundNat(Numeral(d, 10)) < Pow2(1024)
    requires FractionLength(t) == 0 && ExponentLength(t) == 0
    ensures ParseNumber(s) == Read(JNumber(RoundInt(Signed(sign == 1, Numeral(d, 10)))), t)
  {
    hide DigitValue, IsDigit, IsNumeral, DigitPrefix, Numeral, Pow2, RoundNat, RoundInt, FractionLength, ExponentLength, Digits10;
    assert t[0..] == t;
  }

  lemma NoTail(t: string)
    requires Stops(t)
    ensures FractionLength(t) == 0 && ExponentLength(t) == 0
  {
  }

  lemma PlainToken(d: string, t: string)
    requires d != "" && IsNumeral(d, 10) && Stops(t) && Numeral(d, 10) < TWO_64
    ensures ParseNumber(d + t) == Read(JNumber(RoundInt(Numeral(d, 10))), t)
  {
    DigitIsPlain(d[0], 10);
    DigitsStop(d, t);
    RoundedBound(Numeral(d, 10));
    NoTail(t);
    hide *;
    var s := d + t;
    assert s[0] == d[0] && s[0..] == s && s[..|d|] == d && s[|d|..] == t;
    DigitsAre(s);
    WholeToken(s, 0, |d|, d, t);
    SignedIs(Numeral(d, 10));
  }

  lemma MinusToken(d: string, t: string)
    requires d != "" && IsNumeral(d, 10) && Stops(t) && Numeral(d, 10) < TWO_64
    ensures ParseNumber("-" + (d + t)) == Read(JNumber(RoundInt(-(Numeral(d, 10) as int))), t)
  {
    DigitsStop(d, t);
    RoundedBound(Numeral(d, 10));
    NoTail(t);
    hide *;
    var s := "-" + (d + t);
    assert s[1..] == d + t && (d + t)[..|d|] == d && s[1 + |d|..] == t;
    DigitsAre(s[1..]);
    WholeToken(s, 1, |d|, d, t);
    SignedIs(Numeral(d, 10));
  }

  lemma DigitsAre(s: string)
    ensures Digits10(s) == DigitPrefix(s, 10)
  {
  }

  lemma SignedIs(n: int)
    ensures Signed(true, n) == -n && Signed(false, n) == n
  {
  }

  lemma NumberReads(n: int, t: string)
    requires Fits64(n) && Stops(t)
    ensures ParseNumber(Decimal(n) + t) == Read(JNumber(RoundInt(n)), t)
    ensures var c := Decimal(n)[0]; (c == '-' || '0' <= c <= '9') && Decimal(n) != ""
  {
    hide IsNumeral, Digits, ParseNumber, RoundInt, Numeral;
    var d := Digits(if n < 0 then -n else n, 10);
    NumeralOfDigits(if n < 0 then -n else n, 10);
    DigitsForm(if n < 0 then -n else n, 10);
    assert PrintedDigit(d[0], 10);
    PlainToken(d, t);
    MinusToken(d, t);
    assert ("-" + d) + t == "-" + (d + t);
  }

  // ----- values with their blanks -----

  /** `ws` stands before an item, `gap` between a key's colon and its value, `close` before the closing bracket. */
  datatype Node = Str(s: string) | Num(n: int) | Flag(b: bool) | Arr(elems: Elems, close: string) | Obj(fields: Fields, close: string)
  datatype Elems = NoElems | Elem(ws: string, node: Node, rest: Elems)
  datatype Fields = NoFields | Field(ws: string, key: string, gap: string, node: Node, rest: Fields)

  /** The text of a value, followed by `t`. */
  function NodeText(v: Node, t: string): string {
    match v
    case Str(s) => "\"" + (Escape(s) + ("\"" + t))
    case Num(n) => Decimal(n) + t
    case Flag(b) => (if b then "true" else "false") + t
    case Arr(elems, close) => "[" + ElemsText(elems, close + ("]" + t))
    case Obj(fields, close) => "{" + FieldsText(fields, close + ("}" + t))
  }

  function ElemsText(e: Elems, t: string): string {
    match e
    case NoElems => t
    case Elem(ws, node, rest) => ws + NodeText(node, if rest.NoElems? then t else "," + ElemsText(rest, t))
  }

  function FieldsText(f: Fields, t: string): string {
    match f
    case NoFields => t
    case Field(ws, key, gap, node, rest) =>
      ws + ("\"" + (Escape(key) + ("\"" + (":" + (gap + NodeText(node, if rest.NoFields? then t else "," + FieldsText(rest, t)))))))
  }

  function ToJson(v: Node): Json {
    match v
    case Str(s) => JString(s)
    case Num(n) => JNumber(RoundInt(n))
    case Flag(b) => JBool(b)
    case Arr(elems, _) => JArray(ToItems(elems))
    case Obj(fields, _) => JObject(ToMembers(fields))
  }

  function ToItems(e: Elems): seq<Json> {
    match e
    case NoElems => []
    case Elem(_, node, rest) => [ToJson(node)] + ToItems(rest)
  }

  function ToMembers(f: Fields): seq<Member> {
    match f
    case NoFields => []
    case Field(_, key, _, node, rest) => [Member(key, ToJson(node))] + ToMembers(rest)
  }

  predicate Blank(ws: string) {
    forall i :: 0 <= i < |ws| ==> IsSpace(ws[i])
  }

  /** Blanks are blanks, numbers fit, and the nesting stays within `room` levels. */
  predicate Good(v: Node, room: nat) {
    room > 0 &&
    match v
    case Str(_) => true
    case Num(n) => Fits64(n)
    case Flag(_) => true
    case Arr(elems, close) => Blank(close) && GoodElems(elems, room - 1)
    case Obj(fields, close) => Blank(close) && GoodFields(fields, room - 1)
  }

  predicate GoodElems(e: Elems, room: nat) {
    e.Elem? ==> Blank(e.ws) && Good(e.node, room) && GoodElems(e.rest, room)
  }

  predicate GoodFields(f: Fields, room: nat) {
    f.Field? ==> Blank(f.ws) && Blank(f.gap) && Good(f.node, room) && GoodFields(f.rest, room)
  }

  lemma {:induction false} SkipBlank(ws: string, rest: string)
    requires Blank(ws)
    ensures SkipWs(ws + rest) == SkipWs(rest)
    decreases |ws|
  {
    if ws == "" {
      assert ws + rest == rest;
    } else {
      assert IsSpace(ws[0]);
      assert (ws + rest)[1..] == ws[1..] + rest;
      SkipBlank(ws[1..], rest);
    }
  }

  lemma NextIs(ws: string, c: char, rest: string)
    requires Blank(ws) && !IsSpace(c)
    ensures SkipWs(ws + ([c] + rest)) == [c] + rest && SkipWs(ws + ([c] + rest))[1..] == rest
    ensures forall d :: Next(ws + ([c] + rest), d) <==> c == d
  {
    SkipBlank(ws, [c] + rest);
    assert ([c] + rest)[1..] == rest;
  }

  lemma BlankStops(ws: string, c: char, rest: string)
    requires Blank(ws) && Stops([c] + rest)
    ensures Stops(ws + ([c] + rest))
  {
    if ws != "" {
      assert IsSpace(ws[0]);
      assert (ws + ([c] + rest))[0] == ws[0];
    } else {
      assert ws + ([c] + rest) == [c] + rest;
    }
  }

  lemma ValueAfterBlank(ws: string, s: string, depth: nat)
    requires Blank(ws)
    ensures ParseValue(ws + s, depth) == ParseValue(s, depth)
  {
    hide ParseValue;
    SkipBlank(ws, s);
    ValueStep(ws + s, depth);
    ValueStep(s, depth);
  }

  lemma PunctuationStops(rest: string)
    ensures Stops("," + rest) && Stops("]" + rest) && Stops("}" + rest)
    ensures !IsSpace(',') && !IsSpace(']') && !IsSpace('}') && !IsSpace(':') && !IsSpace('"') && !IsSpace('[') && !IsSpace('{')
  {
  }

  lemma StrReads(s: string, t: string, depth: nat)
    requires depth < MAX_DEPTH
    ensures ParseValue(NodeText(Str(s), t), depth) == Read(JString(s), t)
  {
    hide ParseValue, StringBody, Escape;
    var text := NodeText(Str(s), t);
    ValueStep(text, depth);
    assert text[0] == '"' && text[1..] == Escape(s) + ("\"" + t);
    EscapedReads(s, t, "");
    assert "" + s == s;
  }

  lemma NumReads(n: int, t: string, depth: nat)
    requires depth < MAX_DEPTH && Fits64(n) && Stops(t)
    ensures ParseValue(NodeText(Num(n), t), depth) == Read(JNumber(RoundInt(n)), t)
  {
    hide ParseValue, ParseNumber, Decimal, RoundInt, Stops;
    NumberReads(n, t);
    var text := NodeText(Num(n), t);
    assert text[0] == Decimal(n)[0];
    ValueStep(text, depth);
  }

  lemma KeywordReads(word: string, b: bool, t: string)
    requires (b && word == "true") || (!b && word == "false")
    ensures Keyword(word + t) == Read(JBool(b), t)
    ensures SkipWs(word + t) == word + t && (word + t)[0] == word[0]
  {
    var text := word + t;
    assert word <= text && text[|word|..] == t;
    assert text[0] == word[0];
  }

  lemma FlagReads(b: bool, t: string, depth: nat)
    requires depth < MAX_DEPTH
    ensures ParseValue(NodeText(Flag(b), t), depth) == Read(JBool(b), t)
  {
    hide ParseValue, Keyword, SkipWs;
    KeywordReads(if b then "true" else "false", b, t);
    ValueStep(NodeText(Flag(b), t), depth);
  }

  /** The parser reads the text of a value, however it is spaced, within its cap on nesting. */
  lemma {:induction false} NodeReads(v: Node, t: string, depth: nat, room: nat)
    requires Good(v, room) && depth + room <= MAX_DEPTH && Stops(t)
    ensures ParseValue(NodeText(v, t), depth) == Read(ToJson(v), t)
    decreases v, 0
  {
    hide ParseValue, Stops, Blank, ParseItems, ParseMembers, Fits64, ElemsText, FieldsText;
    match v
    case Str(s) => StrReads(s, t, depth);
    case Num(n) => NumReads(n, t, depth);
    case Flag(b) => FlagReads(b, t, depth);
    case Arr(elems, close) =>
      ValueStep(NodeText(v, t), depth);
      ArrayReads(elems, close, t, depth + 1, room - 1);
      Bracket('[', ElemsText(elems, close + ("]" + t)));
    case Obj(fields, close) =>
      ValueStep(NodeText(v, t), depth);
      ObjectReads(fields, close, t, depth + 1, room - 1);
      Bracket('{', FieldsText(fields, close + ("}" + t)));
  }

  lemma Bracket(c: char, rest: string)
    requires c == '[' || c == '{'
    ensures SkipWs([c] + rest) == [c] + rest && ([c] + rest)[1..] == rest
  {
  }

  lemma {:induction false} ArrayReads(elems: Elems, close: string, t: string, depth: nat, room: nat)
    requires Blank(close) && GoodElems(elems, room) && depth + room <= MAX_DEPTH && Stops(t)
    ensures ArrayValue(ElemsText(elems, close + ("]" + t)), depth) == Read(JArray(ToItems(elems)), t)
    decreases elems, 1
  {
    hide ParseValue, Stops, Blank, ParseItems;
    PunctuationStops(t);
    match elems
    case NoElems => NextIs(close, ']', t);
    case Elem(ws, node, rest) =>
      var text := ElemsText(elems, close + ("]" + t));
      FirstElem(elems, close + ("]" + t));
      ElemsRead(elems, close, t, depth, room, []);
      assert [] + ToItems(elems) == ToItems(elems);
  }

  /** A list of items does not start with a closing bracket. */
  lemma FirstElem(elems: Elems, tail: string)
    requires elems.Elem? && Blank(elems.ws)
    ensures !Next(ElemsText(elems, tail), ']')
  {
    hide Blank, IsSpace, SkipWs, Escape;
    var after := if elems.rest.NoElems? then tail else "," + ElemsText(elems.rest, tail);
    SkipBlank(elems.ws, NodeText(elems.node, after));
    NodeStart(elems.node, after);
  }

  lemma NodeStart(v: Node, t: string)
    ensures NodeText(v, t) != "" && NodeText(v, t)[0] != ']' && NodeText(v, t)[0] != '}'
    ensures SkipWs(NodeText(v, t)) == NodeText(v, t)
  {
    hide ElemsText, FieldsText, Escape;
    if v.Num? {
      hide Digits;
      var m := if v.n < 0 then -v.n else v.n;
      DigitsForm(m, 10);
      assert PrintedDigit(Digits(m, 10)[0], 10);
      assert NodeText(v, t)[0] == Decimal(v.n)[0];
    }
  }

  lemma {:induction false} ElemsRead(elems: Elems, close: string, t: string, depth: nat, room: nat, items: seq<Json>)
    requires elems.Elem? && Blank(close) && GoodElems(elems, room) && depth + room <= MAX_DEPTH && Stops(t)
    ensures ParseItems(ElemsText(elems, close + ("]" + t)), depth, items) == Read(JArray(items + ToItems(elems)), t)
    decreases elems, 0
  {
    hide *;
    ElemParts(elems, room);
    var tail := close + ("]" + t);
    var more := ElemsText(elems.rest, tail);
    var after := if elems.rest.NoElems? then tail else "," + more;
    ElemHead(elems, tail);
    PunctuationStops(t);
    PunctuationStops(more);
    BlankStops(close, ']', t);
    NodeReads(elems.node, after, depth, room);
    ValueAfterBlank(elems.ws, NodeText(elems.node, after), depth);
    ItemsStep(ElemsText(elems, tail), depth, items);
    var x := ToJson(elems.node);
    if elems.rest.NoElems? {
      NextIs(close, ']', t);
    } else {
      NoBlank();
      NextIs("", ',', more);
      assert "" + ("," + more) == "," + more;
      ElemsRead(elems.rest, close, t, depth, room, items + [x]);
      assert (items + [x]) + ToItems(elems.rest) == items + ([x] + ToItems(elems.rest));
    }
  }

  lemma ElemParts(elems: Elems, room: nat)
    requires elems.Elem? && GoodElems(elems, room)
    ensures Blank(elems.ws) && Good(elems.node, room) && GoodElems(elems.rest, room)
    ensures ToItems(elems) == [ToJson(elems.node)] + ToItems(elems.rest)
    ensures elems.rest.NoElems? ==> ToItems(elems) == [ToJson(elems.node)]
  {
    hide Blank, Good, ToJson;
  }

  lemma ElemHead(elems: Elems, tail: string)
    requires elems.Elem?
    ensures ElemsText(elems, tail)
         == elems.ws + NodeText(elems.node, if elems.rest.NoElems? then tail else "," + ElemsText(elems.rest, tail))
  {
    hide NodeText;
  }

  lemma NoBlank()
    ensures Blank("")
  {
  }

  lemma {:induction false} ObjectReads(fields: Fields, close: string, t: string, depth: nat, room: nat)
    requires Blank(close) && GoodFields(fields, room) && depth + room <= MAX_DEPTH && Stops(t)
    ensures ObjectValue(FieldsText(fields, close + ("}" + t)), depth) == Read(JObject(ToMembers(fields)), t)
    decreases fields, 1
  {
    hide ParseValue, Stops, Blank, ParseMembers;
    PunctuationStops(t);
    match fields
    case NoFields => NextIs(close, '}', t);
    case Field(ws, key, gap, node, rest) =>
      FirstField(fields, close + ("}" + t));
      FieldsRead(fields, close, t, depth, room, []);
      assert [] + ToMembers(fields) == ToMembers(fields);
  }

  lemma FirstField(fields: Fields, tail: string)
    requires fields.Field? && Blank(fields.ws)
    ensures !Next(FieldsText(fields, tail), '}')
  {
    hide Blank, NodeText, Escape;
    var after := if fields.rest.NoFields? then tail else "," + FieldsText(fields.rest, tail);
    NextIs(fields.ws, '"', Escape(fields.key) + ("\"" + (":" + (fields.gap + NodeText(fields.node, after)))));
  }

  /** One member: its key, the colon, its value. */
  lemma MemberReads(ws: string, key: string, gap: string, text: string, depth: nat, value: Json, after: string)
    requires Blank(ws) && Blank(gap) && ParseValue(text, depth) == Read(value, after)
    ensures ParseMember(ws + ("\"" + (Escape(key) + ("\"" + (":" + (gap + text))))), depth) == Read(Member(key, value), after)
  {
    hide ParseValue, Blank, StringBody, Escape, SkipWs;
    PunctuationStops("");
    var rest := ":" + (gap + text);
    NextIs(ws, '"', Escape(key) + ("\"" + rest));
    EscapedReads(key, rest, "");
    assert "" + key == key;
    NoBlank();
    NextIs("", ':', gap + text);
    assert "" + rest == rest;
    ValueAfterBlank(gap, text, depth);
  }

  lemma {:induction false} FieldsRead(fields: Fields, close: string, t: string, depth: nat, room: nat, members: seq<Member>)
    requires fields.Field? && Blank(close) && GoodFields(fields, room) && depth + room <= MAX_DEPTH && Stops(t)
    ensures ParseMembers(FieldsText(fields, close + ("}" + t)), depth, members) == Read(JObject(members + ToMembers(fields)), t)
    decreases fields, 0
  {
    hide *;
    FieldParts(fields, room);
    var tail := close + ("}" + t);
    var more := FieldsText(fields.rest, tail);
    var after := if fields.rest.NoFields? then tail else "," + more;
    FieldHead(fields, tail);
    PunctuationStops(t);
    PunctuationStops(more);
    BlankStops(close, '}', t);
    NodeReads(fields.node, after, depth, room);
    MemberReads(fields.ws, fields.key, fields.gap, NodeText(fields.node, after), depth, ToJson(fields.node), after);
    MembersStep(FieldsText(fields, tail), depth, members);
    var m := Member(fields.key, ToJson(fields.node));
    if fields.rest.NoFields? {
      NextIs(close, '}', t);
    } else {
      NoBlank();
      NextIs("", ',', more);
      assert "" + ("," + more) == "," + more;
      FieldsRead(fields.rest, close, t, depth, room, members + [m]);
      assert (members + [m]) + ToMembers(fields.rest) == members + ([m] + ToMembers(fields.rest));
    }
  }

  lemma FieldParts(fields: Fields, room: nat)
    requires fields.Field? && GoodFields(fields, room)
    ensures Blank(fields.ws) && Blank(fields.gap) && Good(fields.node, room) && GoodFields(fields.rest, room)
    ensures ToMembers(fields) == [Member(fields.key, ToJson(fields.node))] + ToMembers(fields.rest)
    ensures fields.rest.NoFields? ==> ToMembers(fields) == [Member(fields.key, ToJson(fields.node))]
  {
    hide Blank, Good, ToJson;
  }

  lemma FieldHead(fields: Fields, tail: string)
    requires fields.Field?
    ensures FieldsText(fields, tail)
         == var after := if fields.rest.NoFields? then tail else "," + FieldsText(fields.rest, tail);
            fields.ws + ("\"" + (Escape(fields.key) + ("\"" + (":" + (fields.gap + NodeText(fields.node, after))))))
  {
    hide NodeText, Escape;
  }

  /** A whole document, followed by blanks. */
  lemma DocumentReads(v: Node, end: string)
    requires Good(v, MAX_DEPTH) && Blank(end)
    ensures Parse(NodeText(v, end)) == Some(ToJson(v))
  {
    hide ParseValue, NodeText, ToJson, Good;
    EndStops(end);
    NodeReads(v, end, 0, MAX_DEPTH);
    SkipBlank(end, "");
    assert end + "" == end;
  }

  lemma EndStops(end: string)
    requires Blank(end)
    ensures Stops(end)
  {
    if end != "" {
      assert IsSpace(end[0]);
    }
  }
}
