/** What replacing a name at its whole tokens yields, said over the text as it was before the replacement:
    the text is cut at its whole tokens of the name, and the pieces are joined with the value. */
module TokenCuts {
  import opened Text
  import opened ScriptText

  // ----- cutting and joining -----

  function Joined(pieces: seq<string>, glue: string): string
    requires pieces != []
  {
    if |pieces| == 1 then pieces[0] else pieces[0] + glue + Joined(pieces[1..], glue)
  }

  /** Between two neighbouring pieces the glue starts at `i`. */
  predicate IsJoint(pieces: seq<string>, glue: string, i: int)
    requires pieces != []
  {
    |pieces| > 1 && (i == |pieces[0]| || IsJoint(pieces[1..], glue, i - |pieces[0]| - |glue|))
  }

  /** The pieces of `s` around its whole tokens of `name`: all of them, and nothing else. */
  ghost predicate CutAtTokens(s: string, name: string, pieces: seq<string>) {
    && pieces != []
    && Joined(pieces, name) == s
    && forall i: nat :: WholeTokenAt(s, name, i) <==> IsJoint(pieces, name, i)
  }

  /** `r` is `s` with each of its whole tokens of `name` replaced. */
  ghost predicate TokensReplaced(s: string, name: string, value: string, r: string) {
    exists pieces: seq<string> {:trigger CutAtTokens(s, name, pieces)} ::
      CutAtTokens(s, name, pieces) && r == Joined(pieces, value)
  }

  /** Tokens of the name never overlap or touch: it starts like an identifier, and where its end repeats its
      start, one of the two characters beside the repeated part would belong to an identifier. */
  predicate Separable(name: string) {
    && name != []
    && IsIdentChar(name[0])
    && forall b :: 0 < b < |name| && Overlaps(name, b) ==> IsIdentChar(name[b]) || IsIdentChar(name[|name| - b - 1])
  }

  predicate Overlaps(name: string, b: nat)
    requires b <= |name|
  {
    name[..b] == name[|name| - b..]
  }

  // ----- the cut -----

  predicate EndsInIdent(s: string) {
    s != [] && IsIdentChar(s[|s| - 1])
  }

  predicate StartsInIdent(s: string) {
    s != [] && IsIdentChar(s[0])
  }

  /** A whole token at the front of what follows a text that ends, or does not end, like an identifier. */
  predicate TokenFirst(left: bool, s: string, name: string) {
    !left && name <= s && !StartsInIdent(s[|name|..])
  }

  /** The pieces from here on. */
  function Cut(left: bool, s: string, name: string): (pieces: seq<string>)
    ensures pieces != []
    decreases |s|
  {
    if s == [] || name == [] then [s]
    else if TokenFirst(left, s, name) then [[]] + Cut(true, s[|name|..], name)
    else
      var rest := Cut(IsIdentChar(s[0]), s[1..], name);
      [[s[0]] + rest[0]] + rest[1..]
  }

  /** What the text from here on becomes. */
  function Rewritten(left: bool, s: string, name: string, value: string): string {
    Joined(Cut(left, s, name), value)
  }

  lemma LongerFirstPiece(c: char, pieces: seq<string>, glue: string)
    requires pieces != []
    ensures Joined([[c] + pieces[0]] + pieces[1..], glue) == [c] + Joined(pieces, glue)
  {
    var longer := [[c] + pieces[0]] + pieces[1..];
    assert longer[1..] == pieces[1..];
  }

  lemma EmptyFirstPiece(pieces: seq<string>, glue: string)
    requires pieces != []
    ensures Joined([[]] + pieces, glue) == glue + Joined(pieces, glue)
  {
    assert ([[]] + pieces)[1..] == pieces;
    assert [] + glue == glue;
  }

  lemma RewrittenStep(left: bool, s: string, name: string, value: string)
    requires s != [] && name != []
    ensures Rewritten(left, s, name, value)
         == if TokenFirst(left, s, name) then value + Rewritten(true, s[|name|..], name, value)
            else [s[0]] + Rewritten(IsIdentChar(s[0]), s[1..], name, value)
  {
    hide Joined, IsIdentChar;
    if TokenFirst(left, s, name) {
      EmptyFirstPiece(Cut(true, s[|name|..], name), value);
    } else {
      LongerFirstPiece(s[0], Cut(IsIdentChar(s[0]), s[1..], name), value);
    }
  }

  lemma RewrittenEnd(left: bool, s: string, name: string, value: string)
    requires s == [] || name == []
    ensures Rewritten(left, s, name, value) == s
  {
  }

  lemma {:induction false} CutJoins(left: bool, s: string, name: string)
    ensures Rewritten(left, s, name, name) == s
    decreases |s|
  {
    hide Rewritten;
    if s != [] && name != [] {
      RewrittenStep(left, s, name, name);
      if TokenFirst(left, s, name) {
        CutJoins(true, s[|name|..], name);
        assert name + s[|name|..] == s;
      } else {
        CutJoins(IsIdentChar(s[0]), s[1..], name);
        assert [s[0]] + s[1..] == s;
      }
    } else {
      RewrittenEnd(left, s, name, name);
    }
  }

  // ----- joints and tokens -----

  /** The flag tells what stands before `s`, as far as a token at its front could depend on it. */
  predicate Fits(left: bool, before: string, s: string) {
    left == EndsInIdent(before) || !StartsInIdent(s)
  }

  lemma TokenFirstIs(left: bool, before: string, s: string, name: string)
    requires Separable(name) && Fits(left, before, s)
    ensures WholeTokenAt(before + s, name, |before|) <==> TokenFirst(left, s, name)
  {
    var t := before + s;
    assert At(t, name, |before|) <==> name <= s by {
      if |name| <= |s| {
        assert t[|before|..|before| + |name|] == s[..|name|];
      }
    }
    if name <= s {
      assert s[0] == name[0];
      assert |before| > 0 ==> t[|before| - 1] == before[|before| - 1];
      assert |name| < |s| ==> t[|before| + |name|] == s[|name|] == s[|name|..][0];
    }
  }

  lemma OverlapIs(s: string, name: string, i: nat, d: nat)
    requires At(s, name, i) && At(s, name, i + d) && 0 < d < |name|
    ensures Overlaps(name, |name| - d) && s[i + d - 1] == name[d - 1] && s[i + |name|] == name[|name| - d]
  {
    var b := |name| - d;
    assert name[..b] == s[i + d..i + d + |name|][..b] == s[i + d..i + |name|];
    assert name[d..] == s[i..i + |name|][d..] == s[i + d..i + |name|];
    assert s[i + d - 1] == s[i..i + |name|][d - 1];
    assert s[i + |name|] == s[i + d..i + d + |name|][b];
  }

  /** Inside a whole token of a separable name no other one starts. */
  lemma NoOverlap(s: string, name: string, i: nat, d: nat)
    requires Separable(name) && WholeTokenAt(s, name, i) && 0 < d < |name|
    ensures !WholeTokenAt(s, name, i + d)
  {
    hide IsIdentChar, Overlaps;
    if At(s, name, i + d) {
      OverlapIs(s, name, i, d);
    }
  }

  lemma {:induction false} NoEarlyJoint(pieces: seq<string>, glue: string, i: int)
    requires pieces != [] && i < 0
    ensures !IsJoint(pieces, glue, i)
    decreases |pieces|
  {
    if |pieces| > 1 {
      NoEarlyJoint(pieces[1..], glue, i - |pieces[0]| - |glue|);
    }
  }

  lemma LaterJoint(c: char, pieces: seq<string>, glue: string, i: int)
    requires pieces != []
    ensures IsJoint([[c] + pieces[0]] + pieces[1..], glue, i) <==> IsJoint(pieces, glue, i - 1)
  {
    var longer := [[c] + pieces[0]] + pieces[1..];
    assert longer[1..] == pieces[1..];
    assert i - |longer[0]| - |glue| == i - 1 - |pieces[0]| - |glue|;
  }

  lemma JointAfterEmpty(pieces: seq<string>, glue: string, i: int)
    requires pieces != []
    ensures IsJoint([[]] + pieces, glue, i) <==> i == 0 || IsJoint(pieces, glue, i - |glue|)
  {
    assert ([[]] + pieces)[1..] == pieces;
  }

  lemma NoTokenInNothing(before: string, name: string, i: nat)
    requires name != []
    ensures !WholeTokenAt(before + [], name, |before| + i)
  {
  }

  lemma AfterToken(left: bool, s: string, name: string)
    requires Separable(name) && TokenFirst(left, s, name)
    ensures |name| <= |s| && name + s[|name|..] == s && name != []
    ensures forall before: string {:trigger Fits(true, before, s[|name|..])} :: Fits(true, before, s[|name|..])
    ensures Cut(left, s, name) == [[]] + Cut(true, s[|name|..], name)
  {
  }

  lemma AfterChar(left: bool, before: string, s: string, name: string)
    requires Separable(name) && !TokenFirst(left, s, name) && s != []
    ensures Fits(IsIdentChar(s[0]), before + [s[0]], s[1..]) && (before + [s[0]]) + s[1..] == before + s
    ensures var rest := Cut(IsIdentChar(s[0]), s[1..], name); Cut(left, s, name) == [[s[0]] + rest[0]] + rest[1..]
  {
  }

  /** The joints of the cut are the whole tokens of the text, every one of them. */
  lemma {:induction false} JointsAreTokens(left: bool, before: string, s: string, name: string, i: nat)
    requires Separable(name) && Fits(left, before, s)
    ensures WholeTokenAt(before + s, name, |before| + i) <==> IsJoint(Cut(left, s, name), name, i)
    decreases |s|
  {
    hide WholeTokenAt, TokenFirst, IsJoint, IsIdentChar, Cut, Fits;
    if s == [] {
      NoTokenInNothing(before, name, i);
      NoJointInOne([s], name, i);
      CutOfNothing(left, name);
    } else {
      TokenFirstIs(left, before, s, name);
      if TokenFirst(left, s, name) {
        AfterToken(left, s, name);
        var rest := s[|name|..];
        JointAfterEmpty(Cut(true, rest, name), name, i);
        if i >= |name| {
          assert (before + name) + rest == before + s;
          JointsAreTokens(true, before + name, rest, name, i - |name|);
        } else {
          NoEarlyJoint(Cut(true, rest, name), name, i - |name|);
          if i > 0 {
            NoOverlap(before + s, name, |before|, i);
          }
        }
      } else {
        AfterChar(left, before, s, name);
        var rest := Cut(IsIdentChar(s[0]), s[1..], name);
        LaterJoint(s[0], rest, name, i);
        if i == 0 {
          NoEarlyJoint(rest, name, -1);
        } else {
          JointsAreTokens(IsIdentChar(s[0]), before + [s[0]], s[1..], name, i - 1);
        }
      }
    }
  }

  lemma NoJointInOne(pieces: seq<string>, glue: string, i: int)
    requires |pieces| == 1
    ensures !IsJoint(pieces, glue, i)
  {
  }

  lemma CutOfNothing(left: bool, name: string)
    ensures Cut(left, [], name) == [[]]
  {
  }

  lemma CutIsAtTokens(s: string, name: string)
    requires Separable(name)
    ensures CutAtTokens(s, name, Cut(false, s, name))
  {
    hide WholeTokenAt, IsJoint, Cut, Separable, Joined;
    CutJoins(false, s, name);
    assert [] + s == s;
    forall i: nat ensures WholeTokenAt(s, name, i) <==> IsJoint(Cut(false, s, name), name, i) {
      JointsAreTokens(false, [], s, name, i);
    }
  }

  // ----- the replacement -----

  lemma SkipOne(s: string, name: string, value: string, pos: nat)
    requires name != [] && !WholeTokenAt(s, name, pos)
    ensures ReplaceToken(s, name, value, pos) == ReplaceToken(s, name, value, pos + 1)
  {
    hide WholeTokenAt;
  }

  lemma ReplaceTokenStep(done: string, s: string, name: string, value: string, token: bool)
    requires name != [] && s != [] && token == WholeTokenAt(done + s, name, |done|) && (token ==> name <= s)
    ensures ReplaceToken(done + s, name, value, |done|)
         == if token then ReplaceToken((done + value) + s[|name|..], name, value, |done + value|)
            else ReplaceToken((done + [s[0]]) + s[1..], name, value, |done + [s[0]]|)
  {
    hide ReplaceToken, WholeTokenAt;
    if token {
      Splice(done, s, name, value);
      TokenIsThere(done + s, name, |done|);
      TokenStep(done + s, name, value, |done|);
    } else {
      assert (done + [s[0]]) + s[1..] == done + s;
      SkipOne(done + s, name, value, |done|);
    }
  }

  lemma TokenIsThere(s: string, name: string, i: nat)
    requires WholeTokenAt(s, name, i)
    ensures At(s, name, i)
  {
    hide IsIdentChar;
  }

  lemma Splice(done: string, s: string, name: string, value: string)
    requires name <= s
    ensures (done + s)[..|done|] + value + (done + s)[|done| + |name|..] == (done + value) + s[|name|..]
  {
  }

  /** What is behind the cursor no longer matters, and what is before it is still the text as it was. */
  lemma {:induction false} ReplacesTheRest(left: bool, done: string, s: string, name: string, value: string)
    requires Separable(name) && Fits(left, done, s)
    ensures ReplaceToken(done + s, name, value, |done|) == done + Rewritten(left, s, name, value)
    decreases |s|
  {
    hide WholeTokenAt, TokenFirst, IsIdentChar, Cut, Fits, Rewritten, ReplaceToken;
    if s == [] {
      NothingToScan(done, name, value);
      RewrittenEnd(left, s, name, value);
    } else {
      TokenFirstIs(left, done, s, name);
      RewrittenStep(left, s, name, value);
      if TokenFirst(left, s, name) {
        AfterToken(left, s, name);
        ReplaceTokenStep(done, s, name, value, true);
        ReplacesTheRest(true, done + value, s[|name|..], name, value);
      } else {
        AfterChar(left, done, s, name);
        ReplaceTokenStep(done, s, name, value, false);
        ReplacesTheRest(IsIdentChar(s[0]), done + [s[0]], s[1..], name, value);
      }
    }
  }

  lemma NothingToScan(done: string, name: string, value: string)
    ensures ReplaceToken(done + [], name, value, |done|) == done
  {
    assert done + [] == done;
  }

  lemma ReplaceIsRewritten(s: string, name: string, value: string)
    requires Separable(name)
    ensures ReplaceToken(s, name, value, 0) == Rewritten(false, s, name, value)
  {
    hide ReplaceToken, Rewritten, Separable;
    assert [] + s == s;
    ReplacesTheRest(false, [], s, name, value);
  }

  lemma ReplacesWholeTokens(s: string, name: string, value: string)
    requires Separable(name)
    ensures TokensReplaced(s, name, value, ReplaceToken(s, name, value, 0))
  {
    hide ReplaceToken, Separable, CutAtTokens, Cut;
    CutIsAtTokens(s, name);
    ReplaceIsRewritten(s, name, value);
  }

  // ----- exactly the separable names -----

  /** Joints are at least a whole glue apart. */
  lemma {:induction false} JointsApart(pieces: seq<string>, glue: string, i: int, j: int)
    requires pieces != [] && IsJoint(pieces, glue, i) && IsJoint(pieces, glue, j) && i < j
    ensures i + |glue| <= j
    decreases |pieces|
  {
    var behind := |pieces[0]| + |glue|;
    if i != |pieces[0]| {
      if j == |pieces[0]| {
        NoEarlyJoint(pieces[1..], glue, i - behind);
      } else {
        JointsApart(pieces[1..], glue, i - behind, j - behind);
      }
    } else if j < i + |glue| {
      NoEarlyJoint(pieces[1..], glue, j - behind);
    }
  }

  /** Two tokens that overlap leave no way to cut. */
  lemma OverlapCannotBeCut(name: string, b: nat, value: string)
    requires 0 < b < |name| && Overlaps(name, b) && !IsIdentChar(name[b]) && !IsIdentChar(name[|name| - b - 1])
    ensures forall r: string :: !TokensReplaced(name + name[b..], name, value, r)
  {
    var s, d := name + name[b..], |name| - b;
    assert s[..|name|] == name;
    assert s[d..d + |name|] == name by {
      assert s[d..] == name[d..] + name[b..];
      assert name[d..] == name[..b];
    }
    assert WholeTokenAt(s, name, 0) && WholeTokenAt(s, name, d);
    forall pieces: seq<string> ensures !CutAtTokens(s, name, pieces) {
      if CutAtTokens(s, name, pieces) {
        JointsApart(pieces, name, 0, d);
      }
    }
  }

  /** A value whose edge differs from the name's last character in belonging to an identifier. */
  function Opposite(name: string): (v: string)
    requires name != []
    ensures |v| == 1 && IsIdentChar(v[0]) != IsIdentChar(name[|name| - 1])
  {
    if IsIdentChar(name[|name| - 1]) then "-" else "x"
  }

  lemma Halves(a: string, b: string)
    ensures (a + b)[..|a|] == a && (a + b)[|a|..] == b && (a + b)[|a|..|a| + |b|] == b
    ensures a != [] ==> (a + b)[|a| - 1] == a[|a| - 1]
    ensures b != [] ==> (a + b)[|a|] == b[0]
  {
  }

  /** In the name written twice the first is a whole token. */
  lemma FirstOfTwo(name: string)
    requires name != [] && !IsIdentChar(name[0])
    ensures WholeTokenAt(name + name, name, 0)
    ensures WholeTokenAt(name + name, name, |name|) <==> !IsIdentChar(name[|name| - 1])
  {
    hide IsIdentChar;
    Halves(name, name);
  }

  lemma TouchingRescanned(name: string)
    requires name != [] && !IsIdentChar(name[0])
    ensures ReplaceToken(name + name, name, Opposite(name), 0)
         == Opposite(name) + if IsIdentChar(name[|name| - 1]) then Opposite(name) else name
  {
    hide ReplaceToken, WholeTokenAt, IsIdentChar, Opposite;
    var v := Opposite(name);
    TouchingFirst(name, v);
    SecondIsWhole(name, v);
    if IsIdentChar(name[|name| - 1]) {
      TokenAtFront(v, name, v);
      Finished(v + v, name, v);
    } else {
      SkipOne(v + name, name, v, 1);
      Finished(v + name, name, v);
    }
  }

  lemma TokenAtFront(done: string, name: string, v: string)
    requires WholeTokenAt(done + name, name, |done|) && name != []
    ensures ReplaceToken(done + name, name, v, |done|) == ReplaceToken(done + v, name, v, |done + v|)
  {
    hide ReplaceToken, WholeTokenAt;
    ReplaceTokenStep(done, name, name, v, true);
    assert (done + v) + name[|name|..] == done + v;
  }

  lemma TouchingFirst(name: string, v: string)
    requires name != [] && !IsIdentChar(name[0])
    ensures ReplaceToken(name + name, name, v, 0) == ReplaceToken(v + name, name, v, |v|)
  {
    hide ReplaceToken, WholeTokenAt, IsIdentChar;
    FirstOfTwo(name);
    Halves(name, name);
    assert [] + (name + name) == name + name && [] + v == v;
    ReplaceTokenStep([], name + name, name, v, true);
  }

  lemma SecondIsWhole(name: string, v: string)
    requires name != [] && |v| == 1
    ensures WholeTokenAt(v + name, name, 1) <==> !IsIdentChar(v[0])
  {
    hide IsIdentChar;
    Halves(v, name);
  }

  lemma Finished(s: string, name: string, value: string)
    requires |s| < 2 + |name|
    ensures ReplaceToken(s, name, value, 2) == s
  {
  }

  lemma AtLeastGlue(pieces: seq<string>, glue: string)
    requires pieces != []
    ensures |pieces| > 1 ==> |Joined(pieces, glue)| >= |glue|
  {
  }

  /** The glue alone, cut somewhere: either not at all or around it. */
  lemma CutOfGlue(pieces: seq<string>, glue: string)
    requires pieces != [] && glue != [] && Joined(pieces, glue) == glue
    ensures pieces == if IsJoint(pieces, glue, 0) then [[], []] else [glue]
  {
    if |pieces| > 1 {
      var rest := pieces[1..];
      assert pieces[0] == [] && Joined(rest, glue) == [];
      AtLeastGlue(rest, glue);
      assert rest == [[]];
      assert pieces == [[], []];
    }
  }

  /** The name written twice, cut at its whole tokens and joined with a value. */
  lemma TwiceCut(name: string, pieces: seq<string>, v: string)
    requires name != [] && !IsIdentChar(name[0]) && CutAtTokens(name + name, name, pieces)
    ensures Joined(pieces, v) == v + if IsIdentChar(name[|name| - 1]) then name else v
  {
    hide WholeTokenAt, IsIdentChar;
    assert pieces != [];
    FirstOfTwo(name);
    FirstJointAtFront(pieces, name);
    var rest := pieces[1..];
    Halves(name, name);
    Halves(name, Joined(rest, name));
    CutOfGlue(rest, name);
    assert [] + v == v;
    assert Joined(pieces, v) == v + Joined(rest, v);
    if |rest| == 2 {
      assert rest[1..] == [[]];
      assert Joined(rest, v) == v;
    }
  }

  /** Two tokens that touch: the second is judged beside the value, not beside the name it follows. */
  lemma TouchingIsMisjudged(name: string)
    requires name != [] && !IsIdentChar(name[0])
    ensures !TokensReplaced(name + name, name, Opposite(name), ReplaceToken(name + name, name, Opposite(name), 0))
  {
    hide ReplaceToken, WholeTokenAt, IsJoint, Joined;
    var v := Opposite(name);
    TouchingRescanned(name);
    forall pieces: seq<string> | CutAtTokens(name + name, name, pieces)
      ensures ReplaceToken(name + name, name, v, 0) != Joined(pieces, v)
    {
      TwiceCut(name, pieces, v);
      Halves(v, name);
      Halves(v, v);
      assert name != v;
    }
  }

  lemma FirstJointAtFront(pieces: seq<string>, glue: string)
    requires pieces != [] && IsJoint(pieces, glue, 0)
    ensures |pieces| > 1 && pieces[0] == []
    ensures Joined(pieces, glue) == glue + Joined(pieces[1..], glue)
    ensures IsJoint(pieces, glue, |glue|) <==> |glue| == 0 || IsJoint(pieces[1..], glue, 0)
  {
    if pieces[0] != [] {
      NoEarlyJoint(pieces[1..], glue, -|pieces[0]| - |glue|);
    }
    assert [] + glue == glue;
  }

  /** Replacing in place amounts to replacing the whole tokens of the text as it was, in every text and by
      every value, exactly for the separable names. */
  lemma ReplacementIff(name: string)
    requires name != []
    ensures Separable(name)
       <==> forall s: string, value: string :: TokensReplaced(s, name, value, ReplaceToken(s, name, value, 0))
  {
    hide ReplaceToken, TokensReplaced, IsIdentChar, Overlaps, Separable;
    if Separable(name) {
      forall s: string, value: string ensures TokensReplaced(s, name, value, ReplaceToken(s, name, value, 0)) {
        ReplacesWholeTokens(s, name, value);
      }
    } else {
      InseparableFails(name);
    }
  }

  lemma InseparableFails(name: string)
    requires name != [] && !Separable(name)
    ensures exists s: string, value: string :: !TokensReplaced(s, name, value, ReplaceToken(s, name, value, 0))
  {
    hide ReplaceToken, TokensReplaced, IsIdentChar, Overlaps;
    if !IsIdentChar(name[0]) {
      TouchingIsMisjudged(name);
    } else {
      var b :| 0 < b < |name| && Overlaps(name, b) && !IsIdentChar(name[b]) && !IsIdentChar(name[|name| - b - 1]);
      OverlapCannotBeCut(name, b, []);
      var s := name + name[b..];
      assert !TokensReplaced(s, name, [], ReplaceToken(s, name, [], 0));
    }
  }

  /** Whole identifiers, every character of which belongs to one. */
  predicate IsIdentifier(name: string) {
    name != [] && forall i :: 0 <= i < |name| ==> IsIdentChar(name[i])
  }

  lemma IdentifiersAreSeparable(name: string)
    requires IsIdentifier(name)
    ensures Separable(name)
  {
  }

  /** The second of two dollar signs is left, although it is as whole a token as the first. */
  lemma DollarIsLeft()
    ensures WholeTokenAt("$$", "$", 0) && WholeTokenAt("$$", "$", 1) && ReplaceToken("$$", "$", "x", 0) == "x$"
    ensures !Separable("$")
  {
    TouchingRescanned("$");
    assert "$" + "$" == "$$" && "x" + "$" == "x$";
  }
}
