/** Lines of auto-assembler scripts: trimming, labels, quotes, and whole-token replacement outside them. */
module ScriptText {
  import opened Text

  predicate IsSpaceChar(c: char) {
    c == ' ' || c == '\t' || c == '\r' || c == '\n'
  }

  function SkipSpaces(s: string): (r: string)
    ensures |r| <= |s|
  {
    if s != [] && IsSpaceChar(s[0]) then SkipSpaces(s[1..]) else s
  }

  function DropSpaces(s: string): (r: string)
    ensures |r| <= |s|
  {
    if s != [] && IsSpaceChar(s[|s| - 1]) then DropSpaces(s[..|s| - 1]) else s
  }

  function TrimLine(s: string): (r: string)
    ensures |r| <= |s|
  {
    DropSpaces(SkipSpaces(s))
  }

  function UpperChar(c: char): char {
    if 'a' <= c <= 'z' then (c as int - 'a' as int + 'A' as int) as char else c
  }

  function Upper(s: string): (r: string)
    ensures |r| == |s|
  {
    if s == [] then [] else [UpperChar(s[0])] + Upper(s[1..])
  }

  predicate StartsWith(s: string, prefix: string) {
    prefix <= s
  }

  /** "name:" without blanks. */
  predicate IsLabelDefinition(line: string) {
    line != [] && line[|line| - 1] == ':' && ' ' !in line && '\t' !in line
  }

  function StripQuotes(s: string): string {
    var t := TrimLine(s);
    if |t| >= 2 && t[0] == t[|t| - 1] && (t[0] == '"' || t[0] == '\'') then t[1..|t| - 1] else t
  }

  predicate IsIdentChar(c: char) {
    'A' <= c <= 'Z' || 'a' <= c <= 'z' || '0' <= c <= '9' || c == '_'
  }

  predicate WholeTokenAt(s: string, name: string, pos: nat) {
    && At(s, name, pos)
    && (pos == 0 || !IsIdentChar(s[pos - 1]))
    && (pos + |name| >= |s| || !IsIdentChar(s[pos + |name|]))
  }

  /** Replace every whole-token occurrence of `name` at or after `pos`. */
  function ReplaceToken(s: string, name: string, value: string, pos: nat): string
    decreases |s| - pos
  {
    if name == [] || pos + |name| > |s| then s
    else if WholeTokenAt(s, name, pos) then
      var s' := s[..pos] + value + s[pos + |name|..];
      assert |s'| - (pos + |value|) == |s| - pos - |name|;
      ReplaceToken(s', name, value, pos + |value|)
    else ReplaceToken(s, name, value, pos + 1)
  }

  datatype Replacement = Replacement(name: string, value: string)

  function ReplaceAll(span: string, reps: seq<Replacement>): string
    decreases |reps|
  {
    if reps == [] then span else ReplaceAll(ReplaceToken(span, reps[0].name, reps[0].value, 0), reps[1..])
  }

  predicate IsQuote(c: char) {
    c == '"' || c == '\''
  }

  /** The length of the literal that starts with the quote at the front of `s`, its closing quote included. */
  function LiteralLength(s: string): (n: nat)
    requires s != [] && IsQuote(s[0])
    ensures 0 < n <= |s|
  {
    var close := FirstOf(s, s[0], 1);
    if close < |s| then close + 1 else |s|
  }

  function FirstOf(s: string, c: char, i: nat): (r: nat)
    requires i <= |s|
    ensures i <= r <= |s|
    decreases |s| - i
  {
    if i < |s| && s[i] != c then FirstOf(s, c, i + 1) else i
  }

  /** The length of the text before the first quote. */
  function SpanLength(s: string): (n: nat)
    ensures n <= |s|
    ensures s != [] && !IsQuote(s[0]) ==> n > 0
  {
    if s == [] || IsQuote(s[0]) then 0 else 1 + SpanLength(s[1..])
  }

  /** Replace in the spans outside quoted literals; the literals stay as they are. */
  function ReplaceOutsideQuotes(s: string, reps: seq<Replacement>): string
    decreases |s|
  {
    if s == [] then []
    else if IsQuote(s[0]) then
      var n := LiteralLength(s);
      s[..n] + ReplaceOutsideQuotes(s[n..], reps)
    else
      var n := SpanLength(s);
      ReplaceAll(s[..n], reps) + ReplaceOutsideQuotes(s[n..], reps)
  }

  lemma {:induction false} NothingToReplace(s: string)
    ensures ReplaceOutsideQuotes(s, []) == s
    decreases |s|
  {
    if s != [] {
      var n := if IsQuote(s[0]) then LiteralLength(s) else SpanLength(s);
      NothingToReplace(s[n..]);
      assert s[..n] + s[n..] == s;
    }
  }

  /** Places without an occurrence may be skipped. */
  lemma {:induction false} SkipTo(s: string, name: string, value: string, pos: nat, at: nat)
    requires name != [] && pos <= at && forall i :: pos <= i < at ==> !At(s, name, i)
    ensures ReplaceToken(s, name, value, pos) == ReplaceToken(s, name, value, at)
    decreases at - pos
  {
    if pos < at && pos + |name| <= |s| {
      SkipTo(s, name, value, pos + 1, at);
    }
  }

  lemma TokenStep(s: string, name: string, value: string, at: nat)
    requires name != [] && At(s, name, at)
    ensures ReplaceToken(s, name, value, at)
         == if WholeTokenAt(s, name, at) then ReplaceToken(s[..at] + value + s[at + |name|..], name, value, at + |value|)
            else ReplaceToken(s, name, value, at + 1)
  {
    hide WholeTokenAt;
  }

  lemma NoName(s: string, value: string)
    ensures ReplaceToken(s, [], value, 0) == s
  {
  }

  lemma PastEnd(s: string, name: string, value: string)
    ensures ReplaceToken(s, name, value, |s| + 1) == s
  {
  }

  lemma NothingLeft(reps: seq<Replacement>)
    ensures ReplaceOutsideQuotes([], reps) == []
  {
  }
}
