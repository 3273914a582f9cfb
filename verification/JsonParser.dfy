/** The recursive-descent JSON parser of the table format: what is left of the input after each step, with
    the cap on nesting; and the parser object that moves a position over the input. */
module JsonParser {
  import opened Text
  import opened Words

  /** An object keeps its members in order of arrival; of several with one key the first one counts. Whole
      numbers are held as the double they are read into; the value of a number with a fraction or an exponent
      is left to the reader. */
  datatype Json =
    | JNull
    | JBool(b: bool)
    | JNumber(n: int)
    | JDecimal(token: string)
    | JString(s: string)
    | JArray(items: seq<Json>)
    | JObject(members: seq<Member>)

  datatype Member = Member(key: string, value: Json)

  datatype Step<+T> = Read(value: T, rest: string) | Bad

  const MAX_DEPTH: nat := 128

  // ----- numbers -----

  /** How many binary digits a double has no room for. */
  function Excess(n: nat): nat {
    if n < 0x20_0000_0000_0000 then 0 else 1 + Excess(n / 2)
  }

  /** The double nearest to a whole number, ties to even. */
  function RoundNat(n: nat): nat {
    var p := Pow2(Excess(n));
    var q, r := n / p, n % p;
    if 2 * r > p || (2 * r == p && q % 2 == 1) then (q + 1) * p else q * p
  }

  function RoundInt(n: int): int {
    if n < 0 then -(RoundNat(-n) as int) else RoundNat(n)
  }

  function Digits10(s: string): (n: nat)
    ensures n <= |s|
  {
    DigitPrefix(s, 10)
  }

  /** The length of a fraction or exponent after the digits, if there is one. */
  function FractionLength(s: string): (n: nat)
    ensures n <= |s|
  {
    if s != "" && s[0] == '.' then 1 + Digits10(s[1..]) else 0
  }

  function ExponentLength(s: string): (n: nat)
    ensures n <= |s|
  {
    if s == "" || (s[0] != 'e' && s[0] != 'E') then 0
    else
      var sign := if |s| > 1 && (s[1] == '+' || s[1] == '-') then 1 else 0;
      var d := Digits10(s[1 + sign..]);
      if d == 0 then 0 else 1 + sign + d
  }

  function ParseNumber(s: string): (r: Step<Json>)
    ensures r.Read? ==> |r.rest| < |s|
  {
    var sign := if s != "" && s[0] == '-' then 1 else 0;
    var d := Digits10(s[sign..]);
    var whole := s[sign..][..d];
    var tail := s[sign + d..];
    var f := FractionLength(tail);
    if d == 0 && f < 2 then Bad
    else
      var e := ExponentLength(tail[f..]);
      if f + e == 0 && RoundNat(Numeral(whole, 10)) >= Pow2(1024) then Bad
      else if f + e == 0 then Read(JNumber(RoundInt(Signed(sign == 1, Numeral(whole, 10)))), tail)
      else Read(JDecimal(s[..sign + d + f + e]), tail[f + e..])
  }

  // ----- strings -----

  function CString(s: string): string {
    if s == "" || s[0] == '\0' then "" else [s[0]] + CString(s[1..])
  }

  /** The four characters after a backslash-u, as strtoul takes them: all of them must be used. */
  function UnicodeCode(hex: string): Option<nat> {
    var c := CString(hex);
    if c == "" then Some(0)
    else
      var p := Stoull(c, 16);
      if p.Some? && p.value.used == |c| then Some(p.value.value) else None
  }

  function UnicodeChar(code: nat): char {
    if code <= 0x7f then code as char else '?'
  }

  /** The character a one-letter escape stands for. */
  function EscapeOf(c: char): Option<char> {
    if c == '"' || c == '\\' || c == '/' then Some(c)
    else if c == 'b' then Some('\U{8}')
    else if c == 'f' then Some('\U{C}')
    else if c == 'n' then Some('\n')
    else if c == 'r' then Some('\r')
    else if c == 't' then Some('\t')
    else None
  }

  /** Behind the opening quote: the text up to the closing one. */
  function StringBody(s: string, value: string): (r: Step<string>)
    ensures r.Read? ==> |r.rest| < |s|
    decreases |s|
  {
    if s == "" then Bad
    else if s[0] == '"' then Read(value, s[1..])
    else if s[0] != '\\' then StringBody(s[1..], value + [s[0]])
    else if |s| == 1 then Bad
    else if s[1] == 'u' then
      if |s| < 6 || UnicodeCode(s[2..6]).None? then Bad
      else StringBody(s[6..], value + [UnicodeChar(UnicodeCode(s[2..6]).value)])
    else if EscapeOf(s[1]).None? then Bad
    else StringBody(s[2..], value + [EscapeOf(s[1]).value])
  }

  function ParseString(s: string): (r: Step<string>)
    ensures r.Read? ==> |r.rest| < |s|
  {
    if s == "" || s[0] != '"' then Bad else StringBody(s[1..], "")
  }

  // ----- values -----

  function SkipWs(s: string): (r: string)
    ensures |r| <= |s|
    ensures r != "" ==> !IsSpace(r[0])
    ensures s != "" && !IsSpace(s[0]) ==> r == s
  {
    if s != "" && IsSpace(s[0]) then SkipWs(s[1..]) else s
  }

  predicate Next(s: string, c: char) {
    SkipWs(s) != "" && SkipWs(s)[0] == c
  }

  function Keyword(s: string): Step<Json> {
    if "true" <= s then Read(JBool(true), s[4..])
    else if "false" <= s then Read(JBool(false), s[5..])
    else if "null" <= s then Read(JNull, s[4..])
    else Bad
  }

  /** `depth` values are open around this one. */
  function ParseValue(input: string, depth: nat): (r: Step<Json>)
    ensures r.Read? ==> |r.rest| < |input|
    decreases |input|, 3
  {
    var s := SkipWs(input);
    if depth + 1 > MAX_DEPTH || s == "" then Bad
    else if s[0] == '"' then
      var t := ParseString(s);
      if t.Bad? then Bad else Read(JString(t.value), t.rest)
    else if s[0] == '{' then
      if Next(s[1..], '}') then Read(JObject([]), SkipWs(s[1..])[1..])
      else ParseMembers(s[1..], depth + 1, [])
    else if s[0] == '[' then
      if Next(s[1..], ']') then Read(JArray([]), SkipWs(s[1..])[1..])
      else ParseItems(s[1..], depth + 1, [])
    else if s[0] == '-' || '0' <= s[0] <= '9' then ParseNumber(s)
    else Keyword(s)
  }

  /** The items from here to the closing bracket, after those already read. */
  function ParseItems(s: string, depth: nat, items: seq<Json>): (r: Step<Json>)
    ensures r.Read? ==> |r.rest| < |s|
    decreases |s|, 4
  {
    var v := ParseValue(s, depth);
    if v.Bad? then Bad
    else if Next(v.rest, ']') then Read(JArray(items + [v.value]), SkipWs(v.rest)[1..])
    else if Next(v.rest, ',') then ParseItems(SkipWs(v.rest)[1..], depth, items + [v.value])
    else Bad
  }

  function ParseMember(s: string, depth: nat): (r: Step<Member>)
    ensures r.Read? ==> |r.rest| < |s|
    decreases |s|, 3
  {
    var k := ParseString(SkipWs(s));
    if k.Bad? || !Next(k.rest, ':') then Bad
    else
      var v := ParseValue(SkipWs(k.rest)[1..], depth);
      if v.Bad? then Bad else Read(Member(k.value, v.value), v.rest)
  }

  function ParseMembers(s: string, depth: nat, members: seq<Member>): (r: Step<Json>)
    ensures r.Read? ==> |r.rest| < |s|
    decreases |s|, 4
  {
    var m := ParseMember(s, depth);
    if m.Bad? then Bad
    else if Next(m.rest, '}') then Read(JObject(members + [m.value]), SkipWs(m.rest)[1..])
    else if Next(m.rest, ',') then ParseMembers(SkipWs(m.rest)[1..], depth, members + [m.value])
    else Bad
  }

  function Parse(input: string): Option<Json> {
    var v := ParseValue(input, 0);
    if v.Read? && SkipWs(v.rest) == "" then Some(v.value) else None
  }

  // ----- the parser object -----

  /** The same, from a state to a state. */
  class Parser {
    const input: string
    var pos: nat
    var depth: nat

    constructor (text: string)
      ensures input == text && pos == 0 && depth == 0
    {
      input, pos, depth := text, 0, 0;
    }

    ghost predicate Valid()
      reads this
    {
      pos <= |input|
    }

    /** What is left to read. */
    function Left(): string
      reads this
      requires Valid()
    {
      input[pos..]
    }

    method Skip()
      requires Valid()
      modifies this`pos
      ensures Valid() && Left() == SkipWs(old(Left()))
    {
      while pos < |input| && IsSpace(input[pos])
        invariant Valid() && SkipWs(Left()) == SkipWs(old(Left()))
      {
        assert Left()[1..] == input[pos + 1..];
        pos := pos + 1;
      }
    }

    method Consume(expected: char) returns (ok: bool)
      requires Valid()
      modifies this`pos
      ensures Valid() && ok == Next(old(Left()), expected)
      ensures Left() == if ok then SkipWs(old(Left()))[1..] else SkipWs(old(Left()))
    {
      Skip();
      if pos >= |input| || input[pos] != expected {
        return false;
      }
      pos := pos + 1;
      ok := true;
    }

    /** One character of a string, or the end of it. */
    method ReadChar(text: string) returns (ok: bool, done: bool, longer: string)
      requires Valid() && pos < |input|
      modifies this`pos
      ensures Valid() && pos > old(pos)
      ensures !ok ==> StringBody(old(Left()), text) == Bad
      ensures ok && done ==> StringBody(old(Left()), text) == Read(longer, Left())
      ensures ok && !done ==> StringBody(old(Left()), text) == StringBody(Left(), longer)
    {
      hide StringBody, UnicodeCode, EscapeOf, UnicodeChar;
      StringStep(Left(), text);
      Drops(input, pos);
      ok, done, longer := true, false, text;
      var c := input[pos];
      pos := pos + 1;
      if c == '"' {
        done := true;
      } else if c != '\\' {
        longer := text + [c];
      } else if pos >= |input| {
        ok := false;
      } else {
        var esc := input[pos];
        pos := pos + 1;
        if esc == 'u' {
          if pos + 4 > |input| {
            ok := false;
          } else {
            var code := UnicodeCode(input[pos..pos + 4]);
            pos := pos + 4;
            ok := code.Some?;
            longer := text + if ok then [UnicodeChar(code.value)] else [];
          }
        } else {
          var e := EscapeOf(esc);
          ok := e.Some?;
          longer := text + if ok then [e.value] else [];
        }
      }
    }

    /** Behind the opening quote. */
    method ReadString() returns (ok: bool, text: string)
      requires Valid()
      modifies this`pos
      ensures Valid() && ok == ParseString(old(Left())).Read?
      ensures ok ==> Read(text, Left()) == ParseString(old(Left()))
    {
      hide StringBody;
      text := "";
      if pos >= |input| || input[pos] != '"' {
        return false, text;
      }
      Drops(input, pos);
      pos := pos + 1;
      while pos < |input|
        invariant Valid() && StringBody(Left(), text) == ParseString(old(Left()))
        decreases |input| - pos
      {
        var done;
        ok, done, text := ReadChar(text);
        if !ok || done {
          return;
        }
      }
      NoString(text);
      ok := false;
    }

    method ReadNumber() returns (ok: bool, value: Json)
      requires Valid()
      modifies this`pos
      ensures Valid() && ok == ParseNumber(old(Left())).Read?
      ensures ok ==> Read(value, Left()) == ParseNumber(old(Left()))
    {
      hide ParseNumber;
      var left := input[pos..];
      var r := ParseNumber(left);
      if r.Bad? {
        return false, JNull;
      }
      NumberRest(left);
      assert left[|left| - |r.rest|..] == input[|input| - |r.rest|..];
      pos := |input| - |r.rest|;
      ok, value := true, r.value;
    }

    method ReadValue() returns (ok: bool, value: Json)
      requires Valid()
      modifies this
      ensures Valid() && depth == old(depth) && ok == ParseValue(old(Left()), depth).Read?
      ensures ok ==> Read(value, Left()) == ParseValue(old(Left()), depth)
      decreases |input| - pos, 1
    {
      hide ParseValue, ParseString, ParseNumber, ParseItems, ParseMembers, Keyword;
      ghost var before := Left();
      ValueStep(before, depth);
      value := JNull;
      depth := depth + 1;
      if depth > MAX_DEPTH {
        depth := depth - 1;
        return false, value;
      }
      Skip();
      if pos >= |input| {
        ok := false;
      } else if input[pos] == '"' {
        var s;
        ok, s := ReadString();
        value := JString(s);
      } else if input[pos] == '{' {
        ok, value := ReadObject();
      } else if input[pos] == '[' {
        ok, value := ReadArray();
      } else if input[pos] == '-' || '0' <= input[pos] <= '9' {
        ok, value := ReadNumber();
      } else {
        ok, value := ReadKeyword();
      }
      depth := depth - 1;
    }

    method ReadKeyword() returns (ok: bool, value: Json)
      requires Valid()
      modifies this`pos
      ensures Valid() && ok == Keyword(old(Left())).Read?
      ensures ok ==> Read(value, Left()) == Keyword(old(Left()))
    {
      if "true" <= input[pos..] {
        pos := pos + 4;
        return true, JBool(true);
      }
      if "false" <= input[pos..] {
        pos := pos + 5;
        return true, JBool(false);
      }
      if "null" <= input[pos..] {
        pos := pos + 4;
        return true, JNull;
      }
      ok, value := false, JNull;
    }

    method ReadArray() returns (ok: bool, value: Json)
      requires Valid() && pos < |input| && input[pos] == '['
      modifies this
      ensures Valid() && depth == old(depth) && ok == ArrayValue(old(Left())[1..], depth).Read?
      ensures ok ==> Read(value, Left()) == ArrayValue(old(Left())[1..], depth)
      decreases |input| - pos, 0
    {
      hide ParseValue, ParseItems, SkipWs;
      ghost var inside := Left()[1..];
      value := JNull;
      pos := pos + 1;
      assert Left() == inside;
      Skip();
      if pos < |input| && input[pos] == ']' {
        pos := pos + 1;
        return true, JArray([]);
      }
      var items: seq<Json> := [];
      ItemsFromSpace(inside, depth);
      while true
        invariant Valid() && depth == old(depth) && pos > old(pos)
        invariant ParseItems(Left(), depth, items) == ArrayValue(inside, depth)
        decreases |input| - pos
      {
        ItemsStep(Left(), depth, items);
        ghost var here := Left();
        var item;
        ok, item := ReadValue();
        if !ok {
          return;
        }
        ValueShorter(here, depth);
        items := items + [item];
        ghost var after := Left();
        Skip();
        SkipTwice(after);
        if pos < |input| && input[pos] == ']' {
          pos := pos + 1;
          return true, JArray(items);
        }
        ok := Consume(',');
        if !ok {
          return;
        }
      }
    }

    /** A key, a colon and a value. */
    method ReadMember() returns (ok: bool, m: Member)
      requires Valid()
      modifies this
      ensures Valid() && depth == old(depth) && ok == ParseMember(old(Left()), depth).Read?
      ensures ok ==> Read(m, Left()) == ParseMember(old(Left()), depth)
      decreases |input| - pos, 2
    {
      hide ParseValue, SkipWs, ParseString;
      m := Member("", JNull);
      StringShorter(Left());
      Skip();
      var key;
      ok, key := ReadString();
      if !ok {
        return;
      }
      ok := Consume(':');
      if !ok {
        return;
      }
      var item;
      ok, item := ReadValue();
      m := Member(key, item);
    }

    method ReadObject() returns (ok: bool, value: Json)
      requires Valid() && pos < |input| && input[pos] == '{'
      modifies this
      ensures Valid() && depth == old(depth) && ok == ObjectValue(old(Left())[1..], depth).Read?
      ensures ok ==> Read(value, Left()) == ObjectValue(old(Left())[1..], depth)
      decreases |input| - pos, 0
    {
      hide ParseValue, ParseMember, ParseMembers, SkipWs, ParseString;
      ghost var inside := Left()[1..];
      value := JNull;
      pos := pos + 1;
      assert Left() == inside;
      Skip();
      if pos < |input| && input[pos] == '}' {
        pos := pos + 1;
        return true, JObject([]);
      }
      var members: seq<Member> := [];
      MembersFromSpace(inside, depth);
      while true
        invariant Valid() && depth == old(depth) && pos > old(pos)
        invariant ParseMembers(Left(), depth, members) == ObjectValue(inside, depth)
        decreases |input| - pos
      {
        MembersStep(Left(), depth, members);
        ghost var here := Left();
        var m;
        ok, m := ReadMember();
        if !ok {
          return;
        }
        MemberShorter(here, depth);
        members := members + [m];
        ghost var after := Left();
        Skip();
        SkipTwice(after);
        if pos < |input| && input[pos] == '}' {
          pos := pos + 1;
          return true, JObject(members);
        }
        ok := Consume(',');
        if !ok {
          return;
        }
      }
    }

    method ReadAll() returns (ok: bool, value: Json)
      requires pos == 0 && depth == 0
      modifies this
      ensures ok == Parse(input).Some?
      ensures ok ==> value == Parse(input).value
    {
      hide ParseValue;
      assert input[0..] == input;
      ghost var start := Left();
      Skip();
      ValueFromSpace(start, 0);
      ok, value := ReadValue();
      if ok {
        Skip();
        ok := pos == |input|;
      }
    }
  }

  /** What follows an opening bracket. */
  function ArrayValue(s: string, depth: nat): Step<Json> {
    if Next(s, ']') then Read(JArray([]), SkipWs(s)[1..]) else ParseItems(s, depth, [])
  }

  function ObjectValue(s: string, depth: nat): Step<Json> {
    if Next(s, '}') then Read(JObject([]), SkipWs(s)[1..]) else ParseMembers(s, depth, [])
  }

  lemma Drops(input: string, pos: nat)
    requires pos < |input|
    ensures var s := input[pos..];
            && s[0] == input[pos] && s[1..] == input[pos + 1..]
            && (pos + 2 <= |input| ==> s[1] == input[pos + 1] && s[2..] == input[pos + 2..])
            && (pos + 6 <= |input| ==> s[2..6] == input[pos + 2..pos + 6] && s[6..] == input[pos + 6..])
  {
  }

  lemma NoString(text: string)
    ensures StringBody("", text) == Bad
  {
  }

  lemma SkipTwice(s: string)
    ensures SkipWs(SkipWs(s)) == SkipWs(s)
  {
  }

  lemma StringStep(s: string, value: string)
    requires s != ""
    ensures StringBody(s, value) ==
      if s[0] == '"' then Read(value, s[1..])
      else if s[0] != '\\' then StringBody(s[1..], value + [s[0]])
      else if |s| == 1 then Bad
      else if s[1] == 'u' then
        if |s| < 6 || UnicodeCode(s[2..6]).None? then Bad
        else StringBody(s[6..], value + [UnicodeChar(UnicodeCode(s[2..6]).value)])
      else if EscapeOf(s[1]).None? then Bad
      else StringBody(s[2..], value + [EscapeOf(s[1]).value])
  {
    hide UnicodeCode, EscapeOf;
  }

  /** A number leaves an end of the input. */
  lemma NumberRest(s: string)
    ensures ParseNumber(s).Read? ==> |ParseNumber(s).rest| <= |s| && s[|s| - |ParseNumber(s).rest|..] == ParseNumber(s).rest
  {
    hide Pow2, RoundNat, RoundInt, Numeral, DigitPrefix;
  }

  lemma ValueStep(input: string, depth: nat)
    ensures var s := SkipWs(input);
      ParseValue(input, depth) ==
      if depth + 1 > MAX_DEPTH || s == "" then Bad
      else if s[0] == '"' then if ParseString(s).Bad? then Bad else Read(JString(ParseString(s).value), ParseString(s).rest)
      else if s[0] == '{' then ObjectValue(s[1..], depth + 1)
      else if s[0] == '[' then ArrayValue(s[1..], depth + 1)
      else if s[0] == '-' || '0' <= s[0] <= '9' then ParseNumber(s)
      else Keyword(s)
  {
    hide ParseString, ParseItems, ParseMembers, ParseNumber, Keyword, SkipWs;
  }

  lemma ItemsStep(s: string, depth: nat, items: seq<Json>)
    ensures var v := ParseValue(s, depth);
      ParseItems(s, depth, items) ==
      if v.Bad? then Bad
      else if Next(v.rest, ']') then Read(JArray(items + [v.value]), SkipWs(v.rest)[1..])
      else if Next(v.rest, ',') then ParseItems(SkipWs(v.rest)[1..], depth, items + [v.value])
      else Bad
  {
    hide ParseValue, SkipWs;
  }

  lemma MembersStep(s: string, depth: nat, members: seq<Member>)
    ensures var m := ParseMember(s, depth);
      ParseMembers(s, depth, members) ==
      if m.Bad? then Bad
      else if Next(m.rest, '}') then Read(JObject(members + [m.value]), SkipWs(m.rest)[1..])
      else if Next(m.rest, ',') then ParseMembers(SkipWs(m.rest)[1..], depth, members + [m.value])
      else Bad
  {
    hide ParseMember, SkipWs;
  }

  lemma ValueFromSpace(s: string, depth: nat)
    ensures ParseValue(SkipWs(s), depth) == ParseValue(s, depth)
  {
    hide ParseValue;
    SkipTwice(s);
    ValueStep(s, depth);
    ValueStep(SkipWs(s), depth);
  }

  lemma ItemsFromSpace(s: string, depth: nat)
    ensures ParseItems(SkipWs(s), depth, []) == ParseItems(s, depth, [])
  {
    hide ParseValue, ParseItems, SkipWs;
    ValueFromSpace(s, depth);
    ItemsStep(s, depth, []);
    ItemsStep(SkipWs(s), depth, []);
  }

  lemma MembersFromSpace(s: string, depth: nat)
    ensures ParseMembers(SkipWs(s), depth, []) == ParseMembers(s, depth, [])
  {
    hide ParseValue, ParseMembers, SkipWs, ParseString;
    SkipTwice(s);
    assert ParseMember(SkipWs(s), depth) == ParseMember(s, depth);
    MembersStep(s, depth, []);
    MembersStep(SkipWs(s), depth, []);
  }

  lemma ValueShorter(s: string, depth: nat)
    ensures ParseValue(s, depth).Read? ==> |ParseValue(s, depth).rest| < |s|
  {
  }

  lemma MemberShorter(s: string, depth: nat)
    ensures ParseMember(s, depth).Read? ==> |ParseMember(s, depth).rest| < |s|
  {
  }

  lemma StringShorter(s: string)
    ensures ParseString(SkipWs(s)).Read? ==> |ParseString(SkipWs(s)).rest| < |s|
  {
  }
}
