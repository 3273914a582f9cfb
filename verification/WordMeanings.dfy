/** What substitution does to a script line when every replaced name is an identifier: it works word by word,
    leaves quoted literals alone, and a word that is replaced leaves no occurrence behind. */
module WordMeanings {
  import opened Text
  import opened ScriptText
  import opened TokenCuts

  // ----- one replacement -----

  /** No identifier reaches over the border between the two texts. */
  predicate Apart(a: string, b: string) {
    !EndsInIdent(a) || !StartsInIdent(b)
  }

  lemma TokenStaysLeft(left: bool, a: string, b: string, name: string)
    requires IsIdentifier(name) && a != [] && Apart(a, b)
    ensures TokenFirst(left, a + b, name) <==> TokenFirst(left, a, name)
    ensures name <= a ==> (a + b)[|name|..] == a[|name|..] + b
  {
    var s := a + b;
    assert name <= s ==> forall i :: 0 <= i < |name| ==> s[i] == name[i];
    assert s[|a| - 1] == a[|a| - 1] && (b != [] ==> s[|a|] == b[0]);
    assert name <= a ==> s[..|name|] == a[..|name|];
    assert |name| < |a| ==> s[|name|..][0] == a[|name|..][0];
    assert |name| == |a| ==> s[|name|..] == b;
  }

  lemma SameStart(s: string, name: string)
    requires name <= s && name != []
    ensures StartsInIdent(s) == StartsInIdent(name)
  {
  }

  lemma FlagDoesNotMatter(s: string, name: string, value: string)
    requires IsIdentifier(name) && !StartsInIdent(s)
    ensures Rewritten(true, s, name, value) == Rewritten(false, s, name, value)
  {
    hide Joined;
    if name <= s {
      SameStart(s, name);
    }
  }

  lemma FoundToken(left: bool, s: string, name: string)
    requires IsIdentifier(name) && TokenFirst(left, s, name)
    ensures name != [] && name <= s && (|name| == |s| ==> EndsInIdent(s))
    ensures s[|name|..] != [] ==> EndsInIdent(s[|name|..]) == EndsInIdent(s)
  {
    assert |name| == |s| ==> s[|s| - 1] == name[|s| - 1];
  }

  lemma {:induction false} RewrittenSplits(left: bool, a: string, b: string, name: string, value: string)
    requires IsIdentifier(name) && Apart(a, b) && (a == [] && left ==> !StartsInIdent(b))
    ensures Rewritten(left, a + b, name, value) == Rewritten(left, a, name, value) + Rewritten(false, b, name, value)
    decreases |a|
  {
    hide Rewritten, TokenFirst, IsIdentChar, IsIdentifier;
    if a == [] {
      RewrittenEnd(left, a, name, value);
      assert a + b == b && [] + Rewritten(false, b, name, value) == Rewritten(false, b, name, value);
      if left {
        FlagDoesNotMatter(b, name, value);
      }
    } else {
      IdentifiersAreSeparable(name);
      TokenStaysLeft(left, a, b, name);
      RewrittenStep(left, a, name, value);
      RewrittenStep(left, a + b, name, value);
      if TokenFirst(left, a, name) {
        FoundToken(left, a, name);
        RewrittenSplits(true, a[|name|..], b, name, value);
      } else {
        assert (a + b)[1..] == a[1..] + b;
        RewrittenSplits(IsIdentChar(a[0]), a[1..], b, name, value);
      }
    }
  }

  lemma ReplaceSplits(a: string, b: string, name: string, value: string)
    requires IsIdentifier(name) && Apart(a, b)
    ensures ReplaceToken(a + b, name, value, 0) == ReplaceToken(a, name, value, 0) + ReplaceToken(b, name, value, 0)
  {
    hide Rewritten, ReplaceToken, Apart;
    IdentifiersAreSeparable(name);
    ReplaceIsRewritten(a + b, name, value);
    ReplaceIsRewritten(a, name, value);
    ReplaceIsRewritten(b, name, value);
    if a == [] {
      RewrittenEnd(false, a, name, value);
      assert a + b == b && [] + Rewritten(false, b, name, value) == Rewritten(false, b, name, value);
    } else {
      RewrittenSplits(false, a, b, name, value);
    }
  }

  ghost predicate HasToken(s: string, name: string) {
    exists i: nat :: WholeTokenAt(s, name, i)
  }

  lemma {:induction false} Untouched(s: string, name: string, value: string, pos: nat)
    requires !HasToken(s, name)
    ensures ReplaceToken(s, name, value, pos) == s
    decreases |s| - pos
  {
    hide WholeTokenAt;
    assert !WholeTokenAt(s, name, pos);
    if name != [] && pos + |name| <= |s| {
      Untouched(s, name, value, pos + 1);
    }
  }

  /** A word has one whole token: itself. */
  lemma TokenOfWord(w: string, name: string, i: nat)
    requires IsIdentifier(w) && name != []
    ensures WholeTokenAt(w, name, i) <==> i == 0 && w == name
  {
    if WholeTokenAt(w, name, i) && i == 0 {
      assert |name| == |w|;
      assert w[0..|name|] == w;
    }
    if w == name {
      assert w[0..|name|] == name;
    }
  }

  lemma WordReplaced(w: string, name: string, value: string)
    requires IsIdentifier(w)
    ensures ReplaceToken(w, name, value, 0) == if w == name then value else w
  {
    hide WholeTokenAt, ReplaceToken, IsIdentChar;
    if name == [] {
      NoName(w, value);
    } else if w == name {
      TokenOfWord(w, name, 0);
      assert [] + w == w && [] + value == value;
      TokenAtFront([], name, value);
      AtEnd(value, name, value);
    } else {
      assert !HasToken(w, name) by {
        forall i: nat ensures !WholeTokenAt(w, name, i) {
          TokenOfWord(w, name, i);
        }
      }
      Untouched(w, name, value, 0);
    }
  }

  lemma AtEnd(s: string, name: string, value: string)
    ensures ReplaceToken(s, name, value, |s|) == s
  {
  }

  /** Characters of no identifier stay. */
  lemma CharStays(c: char, name: string, value: string)
    requires !IsIdentChar(c) && IsIdentifier(name)
    ensures ReplaceToken([c], name, value, 0) == [c]
  {
    hide ReplaceToken;
    assert forall i: nat :: At([c], name, i) ==> name[0] == [c][i..i + |name|][0] == c;
    Untouched([c], name, value, 0);
  }

  /** The border between two texts stays one when a name is replaced in both. */
  lemma StaysApart(a: string, b: string, name: string, value: string)
    requires IsIdentifier(name) && Apart(a, b)
    ensures a == [] || b == [] || Apart(ReplaceToken(a, name, value, 0), ReplaceToken(b, name, value, 0))
  {
    hide ReplaceToken, IsIdentChar;
    if a != [] && !EndsInIdent(a) {
      var n := |a| - 1;
      assert a == a[..n] + [a[n]];
      ReplaceSplits(a[..n], [a[n]], name, value);
      CharStays(a[n], name, value);
    } else if b != [] && !StartsInIdent(b) {
      assert b == [b[0]] + b[1..];
      ReplaceSplits([b[0]], b[1..], name, value);
      CharStays(b[0], name, value);
    }
  }

  lemma NothingStaysNothing(name: string, value: string)
    ensures ReplaceToken([], name, value, 0) == []
  {
  }

  // ----- a list of replacements -----

  predicate AllIdentifiers(reps: seq<Replacement>) {
    forall k :: 0 <= k < |reps| ==> reps[k].name == [] || IsIdentifier(reps[k].name)
  }

  lemma {:induction false} ReplaceAllNothing(reps: seq<Replacement>)
    ensures ReplaceAll([], reps) == []
    decreases |reps|
  {
    if reps != [] {
      NothingStaysNothing(reps[0].name, reps[0].value);
      ReplaceAllNothing(reps[1..]);
    }
  }

  /** Replacing works on the two sides of a border by themselves. */
  lemma {:induction false} ReplaceAllSplits(a: string, b: string, reps: seq<Replacement>)
    requires AllIdentifiers(reps) && Apart(a, b)
    ensures ReplaceAll(a + b, reps) == ReplaceAll(a, reps) + ReplaceAll(b, reps)
    decreases |reps|
  {
    hide ReplaceToken, IsIdentifier, Apart;
    if a == [] || b == [] {
      ReplaceAllNothing(reps);
      assert [] + b == b && a + [] == a;
      assert [] + ReplaceAll(b, reps) == ReplaceAll(b, reps) && ReplaceAll(a, reps) + [] == ReplaceAll(a, reps);
    } else if reps != [] {
      var name, value := reps[0].name, reps[0].value;
      if name == [] {
        NoName(a, value);
        NoName(b, value);
        NoName(a + b, value);
      } else {
        ReplaceSplits(a, b, name, value);
        StaysApart(a, b, name, value);
      }
      ReplaceAllSplits(ReplaceToken(a, name, value, 0), ReplaceToken(b, name, value, 0), reps[1..]);
    }
  }

  /** What a single word turns into: the first replacement that bears its name decides, and only the later ones
      see the value. */
  function Meaning(w: string, reps: seq<Replacement>): string
    decreases |reps|
  {
    if reps == [] then w
    else if reps[0].name == w then ReplaceAll(reps[0].value, reps[1..])
    else Meaning(w, reps[1..])
  }

  lemma {:induction false} WordBecomes(w: string, reps: seq<Replacement>)
    requires IsIdentifier(w)
    ensures ReplaceAll(w, reps) == Meaning(w, reps)
    decreases |reps|
  {
    hide ReplaceToken;
    if reps != [] {
      WordReplaced(w, reps[0].name, reps[0].value);
      if reps[0].name != w {
        WordBecomes(w, reps[1..]);
      }
    }
  }

  // ----- quotes -----

  /** After `s` the scan is outside every literal. */
  predicate Closed(s: string)
    decreases |s|
  {
    s == [] ||
    if IsQuote(s[0]) then FirstOf(s, s[0], 1) < |s| && Closed(s[LiteralLength(s)..]) else Closed(s[SpanLength(s)..])
  }

  lemma {:induction false} FirstOfInLonger(s: string, t: string, c: char, i: nat)
    requires i <= |s| && FirstOf(s, c, i) < |s|
    ensures FirstOf(s + t, c, i) == FirstOf(s, c, i)
    decreases |s| - i
  {
    assert i < |s| ==> (s + t)[i] == s[i];
    if i < |s| && s[i] != c {
      FirstOfInLonger(s, t, c, i + 1);
    }
  }

  lemma {:induction false} SpanInLonger(s: string, t: string)
    ensures SpanLength(s + t) == if SpanLength(s) < |s| then SpanLength(s) else |s| + SpanLength(t)
    decreases |s|
  {
    if s == [] {
      assert s + t == t;
    } else if !IsQuote(s[0]) {
      assert (s + t)[1..] == s[1..] + t;
      SpanInLonger(s[1..], t);
    }
  }

  lemma {:induction false} SpanHasNoQuote(s: string)
    ensures forall i :: 0 <= i < SpanLength(s) ==> !IsQuote(s[i])
    ensures SpanLength(s) < |s| ==> IsQuote(s[SpanLength(s)])
  {
    if s != [] && !IsQuote(s[0]) {
      SpanHasNoQuote(s[1..]);
      assert forall i :: 0 < i < SpanLength(s) ==> s[i] == s[1..][i - 1];
    }
  }

  /** Between these two texts the rewriting can be cut: a literal ends or starts there, or the replaced names are
      identifiers and none reaches over the border. */
  predicate CanCut(a: string, b: string, reps: seq<Replacement>) {
    || a == [] || b == []
    || IsQuote(a[|a| - 1]) || IsQuote(b[0])
    || (AllIdentifiers(reps) && Apart(a, b))
  }

  lemma QuoteFirst(s: string, t: string, reps: seq<Replacement>)
    requires s != [] && IsQuote(s[0]) && FirstOf(s, s[0], 1) < |s|
    ensures LiteralLength(s + t) == LiteralLength(s) <= |s|
    ensures (s + t)[..LiteralLength(s)] == s[..LiteralLength(s)]
    ensures (s + t)[LiteralLength(s)..] == s[LiteralLength(s)..] + t
  {
    hide FirstOf, IsQuote;
    FirstOfInLonger(s, t, s[0], 1);
    assert (s + t)[0] == s[0];
    TakenFromLonger(s, t, LiteralLength(s));
  }

  lemma TakenFromLonger(s: string, t: string, n: nat)
    requires n <= |s|
    ensures (s + t)[..n] == s[..n] && (s + t)[n..] == s[n..] + t
  {
  }

  lemma CutsLater(a: string, b: string, n: nat, reps: seq<Replacement>)
    requires n <= |a| && CanCut(a, b, reps)
    ensures CanCut(a[n..], b, reps)
  {
    hide IsIdentChar, IsQuote, AllIdentifiers;
  }

  lemma SpanFirst(s: string, t: string)
    ensures SpanLength(s) < |s| ==> SpanLength(s + t) == SpanLength(s) &&
                                    (s + t)[..SpanLength(s)] == s[..SpanLength(s)] &&
                                    (s + t)[SpanLength(s)..] == s[SpanLength(s)..] + t
    ensures SpanLength(s) == |s| ==> SpanLength(s + t) == |s| + SpanLength(t) &&
                                     (s + t)[..|s| + SpanLength(t)] == s + t[..SpanLength(t)] &&
                                     (s + t)[|s| + SpanLength(t)..] == t[SpanLength(t)..]
  {
    hide SpanLength;
    SpanInLonger(s, t);
  }

  lemma SpanRewritten(s: string, reps: seq<Replacement>)
    requires s != [] && !IsQuote(s[0])
    ensures ReplaceOutsideQuotes(s, reps)
         == ReplaceAll(s[..SpanLength(s)], reps) + ReplaceOutsideQuotes(s[SpanLength(s)..], reps)
  {
    hide ReplaceAll;
  }

  lemma BorderInSpan(a: string, b: string, reps: seq<Replacement>)
    requires a != [] && b != [] && !IsQuote(a[0]) && SpanLength(a) == |a| && CanCut(a, b, reps)
    ensures ReplaceOutsideQuotes(a + b, reps) == ReplaceOutsideQuotes(a, reps) + ReplaceOutsideQuotes(b, reps)
  {
    hide ReplaceAll, ReplaceOutsideQuotes, SpanLength, AllIdentifiers, IsIdentChar;
    SpanHasNoQuote(a);
    SpanFirst(a, b);
    SpanRewritten(a, reps);
    SpanRewritten(a + b, reps);
    var m := SpanLength(b);
    assert a[..|a|] == a && a[|a|..] == [];
    NothingLeft(reps);
    if IsQuote(b[0]) {
      assert m == 0 by { SpanHasNoQuote(b); }
      assert a + b[..0] == a && b[0..] == b;
    } else {
      SpanRewritten(b, reps);
      ReplaceAllSplits(a, b[..m], reps);
    }
  }

  lemma LiteralRewritten(s: string, reps: seq<Replacement>)
    requires s != [] && IsQuote(s[0])
    ensures ReplaceOutsideQuotes(s, reps)
         == s[..LiteralLength(s)] + ReplaceOutsideQuotes(s[LiteralLength(s)..], reps)
  {
    hide LiteralLength;
  }

  /** Rewriting goes on after a place outside the literals as if the text began there. */
  lemma {:induction false} RewritesOn(a: string, b: string, reps: seq<Replacement>)
    requires Closed(a) && CanCut(a, b, reps)
    ensures ReplaceOutsideQuotes(a + b, reps) == ReplaceOutsideQuotes(a, reps) + ReplaceOutsideQuotes(b, reps)
    decreases |a|
  {
    hide ReplaceAll, ReplaceOutsideQuotes, SpanLength, LiteralLength, CanCut, IsQuote;
    if a == [] || b == [] {
      NothingLeft(reps);
      assert [] + b == b && a + [] == a;
      assert [] + ReplaceOutsideQuotes(b, reps) == ReplaceOutsideQuotes(b, reps);
    } else if IsQuote(a[0]) {
      QuoteFirst(a, b, reps);
      LiteralRewritten(a, reps);
      LiteralRewritten(a + b, reps);
      CutsLater(a, b, LiteralLength(a), reps);
      RewritesOn(a[LiteralLength(a)..], b, reps);
    } else {
      SpanFirst(a, b);
      SpanRewritten(a, reps);
      SpanRewritten(a + b, reps);
      var n := SpanLength(a);
      if n < |a| {
        CutsLater(a, b, n, reps);
        RewritesOn(a[n..], b, reps);
      } else {
        BorderInSpan(a, b, reps);
      }
    }
  }

  /** A literal's first quote, and what follows it up to the same quote or the end. */
  lemma {:induction false} FirstOfIs(s: string, c: char, i: nat, n: nat)
    requires i <= n <= |s| && (forall k :: i <= k < n ==> s[k] != c) && (n < |s| ==> s[n] == c)
    ensures FirstOf(s, c, i) == n
    decreases n - i
  {
    if i < n {
      FirstOfIs(s, c, i + 1, n);
    }
  }

  /** A quoted literal comes out as it went in, whatever the replacements. */
  lemma QuotedStays(a: string, q: char, body: string, b: string, reps: seq<Replacement>)
    requires Closed(a) && IsQuote(q) && q !in body
    ensures ReplaceOutsideQuotes(a + ([q] + body + [q]) + b, reps)
         == ReplaceOutsideQuotes(a, reps) + ([q] + body + [q]) + ReplaceOutsideQuotes(b, reps)
  {
    hide ReplaceAll, ReplaceOutsideQuotes, AllIdentifiers, IsQuote, Apart, Closed;
    var lit := [q] + body + [q];
    LiteralAlone(q, body, reps);
    RewritesOn(lit, b, reps);
    assert a + lit + b == a + (lit + b);
    RewritesOn(a, lit + b, reps);
  }

  lemma LiteralAlone(q: char, body: string, reps: seq<Replacement>)
    requires IsQuote(q) && q !in body
    ensures var lit := [q] + body + [q]; Closed(lit) && ReplaceOutsideQuotes(lit, reps) == lit
  {
    hide ReplaceAll, SpanLength, IsQuote, FirstOf;
    var lit := [q] + body + [q];
    FirstOfIs(lit, q, 1, |lit| - 1);
    assert lit[..|lit|] == lit && lit[|lit|..] == [];
    NothingLeft(reps);
  }

  /** So does one that is never closed. */
  lemma UnclosedStays(a: string, q: char, body: string, reps: seq<Replacement>)
    requires Closed(a) && IsQuote(q) && q !in body
    ensures ReplaceOutsideQuotes(a + ([q] + body), reps) == ReplaceOutsideQuotes(a, reps) + ([q] + body)
  {
    hide ReplaceAll, SpanLength, AllIdentifiers, IsIdentChar, IsQuote, Apart, FirstOf;
    var lit := [q] + body;
    RewritesOn(a, lit, reps);
    FirstOfIs(lit, q, 1, |lit|);
    assert lit[..|lit|] == lit && lit[|lit|..] == [];
    NothingLeft(reps);
  }

  lemma WordIsSpan(w: string)
    requires IsIdentifier(w)
    ensures w != [] && SpanLength(w) == |w| && !IsQuote(w[0]) && Closed(w)
  {
    SpanHasNoQuote(w);
    assert forall i :: 0 <= i < |w| ==> IsIdentChar(w[i]);
    assert w[|w|..] == [];
  }

  /** A whole word outside the literals becomes what it means, and the text on its two sides becomes what it
      would by itself. */
  lemma WordStandsFor(a: string, w: string, b: string, reps: seq<Replacement>)
    requires Closed(a) && IsIdentifier(w) && AllIdentifiers(reps) && !EndsInIdent(a) && !StartsInIdent(b)
    ensures ReplaceOutsideQuotes(a + w + b, reps)
         == ReplaceOutsideQuotes(a, reps) + Meaning(w, reps) + ReplaceOutsideQuotes(b, reps)
  {
    hide ReplaceAll, AllIdentifiers, IsIdentChar, IsQuote, Closed, SpanLength, EndsInIdent, StartsInIdent, IsIdentifier,
      ReplaceOutsideQuotes;
    assert a + w + b == a + (w + b);
    RewritesOn(a, w + b, reps) by { NoStart(a, w, b); }
    RewritesOn(w, b, reps) by { WordIsSpan(w); }
    WordRewritten(w, reps);
  }

  lemma NoStart(a: string, w: string, b: string)
    requires !EndsInIdent(a) && !StartsInIdent(b)
    ensures Apart(a, w + b) && Apart(w, b)
  {
  }

  lemma WordRewritten(w: string, reps: seq<Replacement>)
    requires IsIdentifier(w)
    ensures ReplaceOutsideQuotes(w, reps) == Meaning(w, reps)
  {
    hide ReplaceAll, IsIdentifier, SpanLength, IsQuote, ReplaceOutsideQuotes;
    WordIsSpan(w);
    SpanRewritten(w, reps);
    NothingLeft(reps);
    assert w[..|w|] == w && w[|w|..] == [];
    WordBecomes(w, reps);
  }

  // ----- nothing is left -----

  /** The length of the word, or of the single other character, at the front. */
  function HeadLength(s: string): (n: nat)
    requires s != []
    ensures 0 < n <= |s|
    ensures !IsIdentChar(s[0]) ==> n == 1
    ensures IsIdentChar(s[0]) ==> IsIdentifier(s[..n]) && !StartsInIdent(s[n..])
  {
    if IsIdentChar(s[0]) && |s| > 1 && IsIdentChar(s[1]) then
      assert forall i :: 0 < i < |s| ==> s[i] == s[1..][i - 1];
      assert s[1..][HeadLength(s[1..])..] == s[1 + HeadLength(s[1..])..];
      1 + HeadLength(s[1..])
    else 1
  }

  lemma NoTokenAcross(a: string, b: string, name: string)
    requires IsIdentifier(name) && (a == [] || b == [] || Apart(a, b)) && !HasToken(a, name) && !HasToken(b, name)
    ensures !HasToken(a + b, name)
  {
    hide IsIdentChar;
    forall i: nat | WholeTokenAt(a + b, name, i)
      ensures WholeTokenAt(a, name, i) || (i >= |a| && WholeTokenAt(b, name, i - |a|))
    {
      TokenOnOneSide(a, b, name, i);
    }
  }

  lemma TokenIsIdent(s: string, name: string, i: nat)
    requires IsIdentifier(name) && At(s, name, i)
    ensures forall j :: i <= j < i + |name| ==> IsIdentChar(s[j])
  {
    forall j | i <= j < i + |name| ensures IsIdentChar(s[j]) {
      assert s[j] == s[i..i + |name|][j - i];
    }
  }

  lemma TokenOnOneSide(a: string, b: string, name: string, i: nat)
    requires IsIdentifier(name) && (a == [] || b == [] || Apart(a, b)) && WholeTokenAt(a + b, name, i)
    ensures WholeTokenAt(a, name, i) || (i >= |a| && WholeTokenAt(b, name, i - |a|))
  {
    hide IsIdentChar;
    var s := a + b;
    TokenIsIdent(s, name, i);
    assert a != [] ==> s[|a| - 1] == a[|a| - 1];
    assert b != [] ==> s[|a|] == b[0];
    if i >= |a| {
      assert s[i..i + |name|] == b[i - |a|..i - |a| + |name|];
    } else if i + |name| <= |a| {
      assert s[i..i + |name|] == a[i..i + |name|];
    }
  }

  /** A name that the value does not bring back is gone. */
  lemma {:induction false} NoTokenLeft(s: string, name: string, value: string)
    requires IsIdentifier(name) && !HasToken(value, name)
    ensures !HasToken(ReplaceToken(s, name, value, 0), name)
    decreases |s|
  {
    hide ReplaceToken, WholeTokenAt, IsIdentChar, Apart;
    if s == [] {
      NothingStaysNothing(name, value);
      NothingHasToken(name);
    } else {
      var n := HeadLength(s);
      var a, b := s[..n], s[n..];
      assert a + b == s;
      HeadApart(s);
      ReplaceSplits(a, b, name, value);
      NoTokenInHead(s, name, value);
      NoTokenLeft(b, name, value);
      StaysApart(a, b, name, value);
      if b == [] {
        NothingStaysNothing(name, value);
      }
      NoTokenAcross(ReplaceToken(a, name, value, 0), ReplaceToken(b, name, value, 0), name);
    }
  }

  lemma NothingHasToken(name: string)
    requires IsIdentifier(name)
    ensures !HasToken([], name)
  {
  }

  lemma HeadApart(s: string)
    requires s != []
    ensures Apart(s[..HeadLength(s)], s[HeadLength(s)..])
  {
  }

  lemma NoTokenInHead(s: string, name: string, value: string)
    requires s != [] && IsIdentifier(name) && !HasToken(value, name)
    ensures !HasToken(ReplaceToken(s[..HeadLength(s)], name, value, 0), name)
  {
    hide ReplaceToken, WholeTokenAt, IsIdentifier;
    var a := s[..HeadLength(s)];
    if IsIdentChar(s[0]) {
      WordReplaced(a, name, value);
      NoNameNoToken(name);
      forall i: nat { TokenOfWord(a, name, i); }
    } else {
      assert a == [s[0]];
      CharStays(s[0], name, value);
      CharHasNoToken(s[0], name);
    }
  }

  lemma NoNameNoToken(name: string)
    requires IsIdentifier(name)
    ensures name != []
  {
  }

  lemma CharHasNoToken(c: char, name: string)
    requires !IsIdentChar(c) && IsIdentifier(name)
    ensures !HasToken([c], name)
  {
    assert forall i: nat :: At([c], name, i) ==> name[0] == [c][i..i + |name|][0] == c;
  }

  /** Replacing an identifier always leaves none of it exactly when the value has none. */
  lemma NoneLeftIff(name: string, value: string)
    requires IsIdentifier(name)
    ensures !HasToken(value, name) <==> forall s: string :: !HasToken(ReplaceToken(s, name, value, 0), name)
  {
    hide ReplaceToken, HasToken;
    if !HasToken(value, name) {
      forall s: string ensures !HasToken(ReplaceToken(s, name, value, 0), name) {
        NoTokenLeft(s, name, value);
      }
    } else {
      WordReplaced(name, name, value);
    }
  }
}
