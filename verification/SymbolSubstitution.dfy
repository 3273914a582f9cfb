/** The loops that substitute symbols in a line. */
module SymbolSubstitution {
  import opened Text
  import opened ScriptText
  import opened TokenCuts
  import opened WordMeanings

  lemma Meant(span: string, name: string, value: string)
    ensures Separable(name) ==> TokensReplaced(span, name, value, ReplaceToken(span, name, value, 0))
    ensures IsIdentifier(name) && !HasToken(value, name) ==> !HasToken(ReplaceToken(span, name, value, 0), name)
  {
    hide *;
    if Separable(name) {
      ReplacesWholeTokens(span, name, value);
    }
    if IsIdentifier(name) && !HasToken(value, name) {
      NoTokenLeft(span, name, value);
    }
  }

  method ReplaceWholeToken(span: string, name: string, value: string) returns (result: string)
    ensures result == ReplaceToken(span, name, value, 0)
    ensures Separable(name) ==> TokensReplaced(span, name, value, result)
    ensures IsIdentifier(name) && !HasToken(value, name) ==> !HasToken(result, name)
  {
    hide ReplaceToken, IsIdentChar, Find, Separable, TokensReplaced, IsIdentifier, HasToken;
    Meant(span, name, value);
    result := span;
    if name == [] {
      NoName(span, value);
      return;
    }
    var pos: nat := 0;
    var next := Find(result, name, pos);
    while next.Some?
      invariant pos <= |result| && next == Find(result, name, pos)
      invariant ReplaceToken(result, name, value, pos) == ReplaceToken(span, name, value, 0)
      decreases |result| - pos
    {
      var at := next.value;
      SkipTo(result, name, value, pos, at);
      TokenStep(result, name, value, at);
      var leftOk := at == 0 || !IsIdentChar(result[at - 1]);
      var after := at + |name|;
      var rightOk := after >= |result| || !IsIdentChar(result[after]);
      if leftOk && rightOk {
        result, pos := result[..at] + value + result[after..], at + |value|;
      } else {
        pos := at + 1;
      }
      next := Find(result, name, pos);
    }
    SkipTo(result, name, value, pos, |result| + 1);
    PastEnd(result, name, value);
  }

  method SubstituteSpan(span: string, reps: seq<Replacement>) returns (result: string)
    ensures result == ReplaceAll(span, reps)
  {
    result := span;
    var k := 0;
    while k < |reps|
      invariant k <= |reps|
      invariant ReplaceAll(result, reps[k..]) == ReplaceAll(span, reps)
    {
      result := ReplaceWholeToken(result, reps[k].name, reps[k].value);
      k := k + 1;
    }
  }

  method LiteralEnd(line: string, start: nat) returns (i: nat)
    requires start < |line| && IsQuote(line[start])
    ensures start < i <= |line| && i - start == LiteralLength(line[start..])
  {
    var q := line[start];
    i := start + 1;
    while i < |line| && line[i] != q
      invariant start < i <= |line|
      invariant FirstOf(line[start..], q, i - start) == FirstOf(line[start..], q, 1)
    {
      i := i + 1;
    }
    if i < |line| {
      i := i + 1;
    }
  }

  method SpanEnd(line: string, start: nat) returns (i: nat)
    requires start < |line| && !IsQuote(line[start])
    ensures start < i <= |line| && i - start == SpanLength(line[start..])
  {
    i := start;
    while i < |line| && !IsQuote(line[i])
      invariant start <= i <= |line|
      invariant SpanLength(line[start..]) == i - start + SpanLength(line[i..])
    {
      assert line[i..][1..] == line[i + 1..];
      i := i + 1;
    }
  }

  /** The text a piece at the front turns into: a literal stays, a span is rewritten. */
  function Piece(rest: string, n: nat, reps: seq<Replacement>): string
    requires n <= |rest|
  {
    if rest != [] && IsQuote(rest[0]) then rest[..n] else ReplaceAll(rest[..n], reps)
  }

  lemma PieceStep(line: string, start: nat, i: nat, reps: seq<Replacement>)
    requires start < i <= |line|
    requires i - start == if IsQuote(line[start]) then LiteralLength(line[start..]) else SpanLength(line[start..])
    ensures ReplaceOutsideQuotes(line[start..], reps)
         == Piece(line[start..], i - start, reps) + ReplaceOutsideQuotes(line[i..], reps)
    ensures line[start..][..i - start] == line[start..i]
  {
    hide ReplaceAll, LiteralLength, SpanLength, IsQuote;
    assert line[start..][i - start..] == line[i..];
  }

  method SubstituteOutsideQuotes(line: string, reps: seq<Replacement>) returns (out: string)
    ensures out == ReplaceOutsideQuotes(line, reps)
  {
    hide ReplaceAll, LiteralLength, SpanLength, IsQuote, ReplaceOutsideQuotes;
    out := [];
    var i := 0;
    assert line[0..] == line;
    while i < |line|
      invariant i <= |line|
      invariant out + ReplaceOutsideQuotes(line[i..], reps) == ReplaceOutsideQuotes(line, reps)
    {
      var start := i;
      if IsQuote(line[start]) {
        i := LiteralEnd(line, start);
        PieceStep(line, start, i, reps);
        out := out + line[start..i];
      } else {
        i := SpanEnd(line, start);
        PieceStep(line, start, i, reps);
        var span := SubstituteSpan(line[start..i], reps);
        out := out + span;
      }
    }
    assert line[|line|..] == [];
    NothingLeft(reps);
  }
}
