/** {$try} / {$except} / {$endtry} in auto-assembler scripts: an index-scanning selector over marked
    lines, and the tree of blocks it stands for. */
module TryExcept {
  import opened Text
  import opened ScriptText

  const TRY: string := "__TRY_BEGIN__"
  const EXCEPT: string := "__TRY_EXCEPT__"
  const END: string := "__TRY_END__"
  const UNEXPECTED: string := "Unexpected {$except}/{$endtry} without {$try}"
  const MISSING_END: string := "Missing {$endtry} for {$try} block"
  const MISSING_EXCEPT: string := "Missing {$except} for {$try} block"
  const GUARDED_LOG: string := "TRY: selected guarded block"

  datatype Kind = TryMark | ExceptMark | EndMark | Plain

  function KindOf(line: string): Kind {
    var t := TrimLine(line);
    if t == TRY then TryMark else if t == EXCEPT then ExceptMark else if t == END then EndMark else Plain
  }

  /** Whether a block can execute: None, or the reason why not. Deterministic for one script run. */
  type Guard = seq<string> -> Option<string>

  /** `log` is what was reported on the way, also when the selection fails. */
  datatype Outcome = Selected(lines: seq<string>, log: seq<string>) | Failed(error: string, log: seq<string>)

  function ExceptLog(reason: string): string {
    "TRY: selected {$except} block (" + reason + ")"
  }

  // ----- the selector -----

  datatype Extent = Extent(exceptAt: Option<nat>, endAt: nat)

  /** Scanning from `j` at nesting depth `depth`: the closing marker, and the last {$except} seen at
      depth one before it. */
  function Scan(ls: seq<string>, j: nat, depth: nat, exceptAt: Option<nat>): (r: Option<Extent>)
    requires depth >= 1 && (exceptAt.Some? ==> exceptAt.value < j)
    ensures r.Some? ==> j <= r.value.endAt < |ls|
    ensures r.Some? && r.value.exceptAt.Some? ==> r.value.exceptAt == exceptAt || j <= r.value.exceptAt.value
    ensures r.Some? && r.value.exceptAt.Some? ==> r.value.exceptAt.value < r.value.endAt
    decreases |ls| - j
  {
    if j >= |ls| then None
    else
      match KindOf(ls[j])
      case TryMark => Scan(ls, j + 1, depth + 1, exceptAt)
      case EndMark => if depth == 1 then Some(Extent(exceptAt, j)) else Scan(ls, j + 1, depth - 1, exceptAt)
      case ExceptMark => Scan(ls, j + 1, depth, if depth == 1 then Some(j) else exceptAt)
      case Plain => Scan(ls, j + 1, depth, exceptAt)
  }

  /** What comes first, then what comes after it. */
  function Then(o: Outcome, next: Outcome): Outcome {
    if o.Failed? then o
    else if next.Failed? then Failed(next.error, o.log + next.log)
    else Selected(o.lines + next.lines, o.log + next.log)
  }

  function Logged(o: Outcome, message: string): Outcome {
    if o.Failed? then o else Selected(o.lines, o.log + [message])
  }

  function Choose(tryLines: seq<string>, exceptLines: seq<string>, guard: Guard): Outcome
    decreases |tryLines| + |exceptLines|, 1
  {
    var refused := guard(tryLines);
    if refused.None? then Logged(Select(tryLines, guard), GUARDED_LOG)
    else Logged(Select(exceptLines, guard), ExceptLog(refused.value))
  }

  function Select(ls: seq<string>, guard: Guard): Outcome
    decreases |ls|, 0
  {
    if ls == [] then Selected([], [])
    else
      match KindOf(ls[0])
      case Plain => Then(Selected([ls[0]], []), Select(ls[1..], guard))
      case ExceptMark => Failed(UNEXPECTED, [])
      case EndMark => Failed(UNEXPECTED, [])
      case TryMark =>
        var e := Scan(ls, 1, 1, None);
        if e.None? then Failed(MISSING_END, [])
        else if e.value.exceptAt.None? then Failed(MISSING_EXCEPT, [])
        else
          Then(Choose(ls[1..e.value.exceptAt.value], ls[e.value.exceptAt.value + 1..e.value.endAt], guard),
               Select(ls[e.value.endAt + 1..], guard))
  }

  method FindExtent(ls: seq<string>, i: nat) returns (found: bool, exceptIndex: nat, endIndex: nat)
    requires i < |ls|
    ensures found == Scan(ls[i..], 1, 1, None).Some?
    ensures found ==> i < endIndex < |ls| && Scan(ls[i..], 1, 1, None).value.endAt == endIndex - i
    ensures found ==> (exceptIndex == |ls| <==> Scan(ls[i..], 1, 1, None).value.exceptAt.None?)
    ensures found && exceptIndex != |ls| ==> i < exceptIndex < endIndex
    ensures found && exceptIndex != |ls| ==> Scan(ls[i..], 1, 1, None).value.exceptAt == Some(exceptIndex - i)
  {
    exceptIndex, endIndex := |ls|, |ls|;
    var depth := 1;
    var j := i + 1;
    ghost var rel := None;
    while j < |ls|
      invariant i < j <= |ls| && depth >= 1 && endIndex == |ls|
      invariant (exceptIndex == |ls| && rel == None) || (i < exceptIndex < j && rel == Some(exceptIndex - i))
      invariant Scan(ls[i..], j - i, depth, rel) == Scan(ls[i..], 1, 1, None)
    {
      var marker := TrimLine(ls[j]);
      assert ls[i..][j - i] == ls[j];
      if marker == TRY {
        depth := depth + 1;
      } else if marker == END {
        depth := depth - 1;
        if depth == 0 {
          endIndex := j;
          return true, exceptIndex, endIndex;
        }
      } else if marker == EXCEPT && depth == 1 {
        exceptIndex := j;
        rel := Some(exceptIndex - i);
      }
      j := j + 1;
    }
    found := false;
  }

  /** What selecting a {$try} block at the front of `rest` amounts to, its extent given. */
  lemma SelectBlock(rest: seq<string>, x: nat, e: nat, guard: Guard)
    requires rest != [] && KindOf(rest[0]).TryMark? && 1 <= x < e < |rest|
    requires Scan(rest, 1, 1, None) == Some(Extent(Some(x), e))
    ensures Select(rest, guard) == Then(Choose(rest[1..x], rest[x + 1..e], guard), Select(rest[e + 1..], guard))
  {
    hide Scan, KindOf, Choose, Then;
  }

  lemma SelectBadBlock(rest: seq<string>, guard: Guard)
    requires rest != [] && KindOf(rest[0]).TryMark?
    ensures Scan(rest, 1, 1, None).None? ==> Select(rest, guard) == Failed(MISSING_END, [])
    ensures Scan(rest, 1, 1, None).Some? && Scan(rest, 1, 1, None).value.exceptAt.None? ==>
              Select(rest, guard) == Failed(MISSING_EXCEPT, [])
  {
    hide Scan, KindOf, Choose, Then;
  }

  /** One {$try} block: the outcome of its chosen branch and where the lines after it start. */
  method SelectBlockAt(ls: seq<string>, i: nat, guard: Guard) returns (o: Outcome, next: nat)
    requires i < |ls| && KindOf(ls[i]).TryMark?
    ensures o.Failed? ==> Select(ls[i..], guard) == o
    ensures o.Selected? ==> i < next <= |ls| && Select(ls[i..], guard) == Then(o, Select(ls[next..], guard))
    decreases |ls|, 0
  {
    hide Scan, KindOf, Select;
    ghost var rest := ls[i..];
    assert rest[0] == ls[i];
    SelectBadBlock(rest, guard);
    next := i;
    var found, exceptIndex, endIndex := FindExtent(ls, i);
    if !found {
      return Failed(MISSING_END, []), i;
    }
    if exceptIndex == |ls| {
      return Failed(MISSING_EXCEPT, []), i;
    }
    var tryLines, exceptLines := ls[i + 1..exceptIndex], ls[exceptIndex + 1..endIndex];
    assert rest[1..exceptIndex - i] == tryLines && rest[exceptIndex - i + 1..endIndex - i] == exceptLines;
    assert rest[endIndex - i + 1..] == ls[endIndex + 1..];
    SelectBlock(rest, exceptIndex - i, endIndex - i, guard);
    var refused := guard(tryLines);
    var branch;
    if refused.None? {
      branch := SelectTryExceptBranches(tryLines, guard);
      o := Logged(branch, GUARDED_LOG);
    } else {
      branch := SelectTryExceptBranches(exceptLines, guard);
      o := Logged(branch, ExceptLog(refused.value));
    }
    assert o == Choose(tryLines, exceptLines, guard);
    next := endIndex + 1;
  }

  method SelectTryExceptBranches(ls: seq<string>, guard: Guard) returns (o: Outcome)
    ensures o == Select(ls, guard)
    decreases |ls|, 1
  {
    hide Scan, TrimLine, Choose;
    var selected, log := [], [];
    var i := 0;
    ThenEmpty(Select(ls, guard));
    assert ls[0..] == ls;
    while i < |ls|
      invariant i <= |ls|
      invariant Then(Selected(selected, log), Select(ls[i..], guard)) == Select(ls, guard)
    {
      ghost var rest := ls[i..];
      assert rest[0] == ls[i] && rest[1..] == ls[i + 1..];
      var line := TrimLine(ls[i]);
      if line == TRY {
        var block, next := SelectBlockAt(ls, i, guard);
        if block.Failed? {
          return Failed(block.error, log + block.log);
        }
        ThenAssoc(Selected(selected, log), block, Select(ls[next..], guard));
        selected, log, i := selected + block.lines, log + block.log, next;
      } else if line == EXCEPT || line == END {
        assert log + [] == log;
        return Failed(UNEXPECTED, log);
      } else {
        ThenAssoc(Selected(selected, log), Selected([ls[i]], []), Select(rest[1..], guard));
        assert log + [] == log;
        selected, i := selected + [ls[i]], i + 1;
      }
    }
    assert ls[i..] == [] && selected + [] == selected && log + [] == log;
    o := Selected(selected, log);
  }

  lemma ThenAssoc(a: Outcome, b: Outcome, c: Outcome)
    requires a.Selected? && b.Selected?
    ensures Then(a, Then(b, c)) == Then(Selected(a.lines + b.lines, a.log + b.log), c)
  {
    if c.Selected? {
      assert a.lines + (b.lines + c.lines) == a.lines + b.lines + c.lines;
    }
    assert a.log + (b.log + c.log) == a.log + b.log + c.log;
  }

  // ----- the tree of blocks -----

  datatype Item = Line(text: string) | Block(tryPart: seq<Item>, exceptPart: seq<Item>)

  function FlattenItem(item: Item): seq<string>
    decreases item, 1
  {
    match item
    case Line(text) => [text]
    case Block(a, b) => [TRY] + Flatten(a) + [EXCEPT] + Flatten(b) + [END]
  }

  function Flatten(items: seq<Item>): seq<string>
    decreases items, 0
  {
    if items == [] then [] else FlattenItem(items[0]) + Flatten(items[1..])
  }

  predicate NoMarksItem(item: Item)
    decreases item, 1
  {
    match item
    case Line(text) => KindOf(text).Plain?
    case Block(a, b) => NoMarks(a) && NoMarks(b)
  }

  /** The text of a tree contains no marker of its own. */
  predicate NoMarks(items: seq<Item>)
    decreases items, 0
  {
    items == [] || (NoMarksItem(items[0]) && NoMarks(items[1..]))
  }

  function EvaluateItem(item: Item, guard: Guard): Outcome
    decreases item, 1
  {
    match item
    case Line(text) => Selected([text], [])
    case Block(a, b) =>
      var refused := guard(Flatten(a));
      if refused.None? then Logged(Evaluate(a, guard), GUARDED_LOG)
      else Logged(Evaluate(b, guard), ExceptLog(refused.value))
  }

  /** The structured meaning: at each block, the try part if it can execute, else the except part. */
  function Evaluate(items: seq<Item>, guard: Guard): Outcome
    decreases items, 0
  {
    if items == [] then Selected([], []) else Then(EvaluateItem(items[0], guard), Evaluate(items[1..], guard))
  }

  // ----- the selector evaluates the tree -----

  lemma MarkKinds()
    ensures KindOf(TRY) == TryMark && KindOf(EXCEPT) == ExceptMark && KindOf(END) == EndMark
  {
    TrimPlain(TRY);
    TrimPlain(EXCEPT);
    TrimPlain(END);
  }

  lemma TrimPlain(s: string)
    requires s != [] && !IsSpaceChar(s[0]) && !IsSpaceChar(s[|s| - 1])
    ensures TrimLine(s) == s
  {
  }

  ghost predicate Holds(ls: seq<string>, part: seq<string>, at: nat) {
    at + |part| <= |ls| && ls[at..at + |part|] == part
  }

  lemma HoldsParts(ls: seq<string>, a: seq<string>, b: seq<string>, at: nat)
    requires Holds(ls, a + b, at)
    ensures Holds(ls, a, at) && Holds(ls, b, at + |a|)
  {
    assert (a + b)[..|a|] == a && (a + b)[|a|..] == b;
    assert ls[at..at + |a|] == ls[at..at + |a + b|][..|a|];
    assert ls[at + |a|..at + |a| + |b|] == ls[at..at + |a + b|][|a|..];
  }

  lemma HoldsOne(ls: seq<string>, x: string, at: nat)
    requires Holds(ls, [x], at)
    ensures at < |ls| && ls[at] == x
  {
    assert ls[at] == ls[at..at + 1][0];
  }

  /** A block inside the scanned text is crossed without ending the scan or moving its {$except}. */
  lemma {:induction false} CrossItem(ls: seq<string>, item: Item, at: nat, depth: nat, x: Option<nat>)
    requires Holds(ls, FlattenItem(item), at) && NoMarksItem(item)
    requires depth >= 1 && (x.Some? ==> x.value < at)
    ensures Scan(ls, at, depth, x) == Scan(ls, at + |FlattenItem(item)|, depth, x)
    decreases item, 1
  {
    hide Holds, Flatten, NoMarks, KindOf;
    match item
    case Line(text) => HoldsOne(ls, text, at);
    case Block(a, b) =>
      hide Scan;
      var fa, fb := Flatten(a), Flatten(b);
      BlockParts(ls, fa, fb, at);
      Cross(ls, a, at + 1, depth + 1, x);
      Cross(ls, b, at + 2 + |fa|, depth + 1, x);
      CrossBlock(ls, |fa|, |fb|, at, depth, x);
  }

  lemma CrossBlock(ls: seq<string>, na: nat, nb: nat, at: nat, depth: nat, x: Option<nat>)
    requires depth >= 1 && (x.Some? ==> x.value < at) && at + na + nb + 3 <= |ls|
    requires ls[at] == TRY && ls[at + 1 + na] == EXCEPT && ls[at + 2 + na + nb] == END
    requires Scan(ls, at + 1, depth + 1, x) == Scan(ls, at + 1 + na, depth + 1, x)
    requires Scan(ls, at + 2 + na, depth + 1, x) == Scan(ls, at + 2 + na + nb, depth + 1, x)
    ensures Scan(ls, at, depth, x) == Scan(ls, at + na + nb + 3, depth, x)
  {
    hide Scan, KindOf;
    MarkKinds();
    ScanMark(ls, at, depth, x);
    ScanMark(ls, at + 1 + na, depth + 1, x);
    ScanMark(ls, at + 2 + na + nb, depth + 1, x);
  }

  lemma ScanMark(ls: seq<string>, j: nat, depth: nat, x: Option<nat>)
    requires depth >= 1 && (x.Some? ==> x.value < j) && j < |ls|
    ensures KindOf(ls[j]).TryMark? ==> Scan(ls, j, depth, x) == Scan(ls, j + 1, depth + 1, x)
    ensures KindOf(ls[j]).EndMark? && depth > 1 ==> Scan(ls, j, depth, x) == Scan(ls, j + 1, depth - 1, x)
    ensures KindOf(ls[j]).ExceptMark? && depth > 1 ==> Scan(ls, j, depth, x) == Scan(ls, j + 1, depth, x)
  {
  }

  lemma BlockParts(ls: seq<string>, fa: seq<string>, fb: seq<string>, at: nat)
    requires Holds(ls, [TRY] + fa + [EXCEPT] + fb + [END], at)
    ensures at + |fa| + |fb| + 3 <= |ls|
    ensures ls[at] == TRY && Holds(ls, fa, at + 1) && ls[at + 1 + |fa|] == EXCEPT
    ensures Holds(ls, fb, at + 2 + |fa|) && ls[at + 2 + |fa| + |fb|] == END
  {
    hide Holds;
    HoldsParts(ls, [TRY] + fa + [EXCEPT] + fb, [END], at);
    HoldsParts(ls, [TRY] + fa + [EXCEPT], fb, at);
    HoldsParts(ls, [TRY] + fa, [EXCEPT], at);
    HoldsParts(ls, [TRY], fa, at);
    HoldsOne(ls, TRY, at);
    HoldsOne(ls, EXCEPT, at + 1 + |fa|);
    HoldsOne(ls, END, at + 2 + |fa| + |fb|);
  }

  lemma {:induction false} Cross(ls: seq<string>, items: seq<Item>, at: nat, depth: nat, x: Option<nat>)
    requires Holds(ls, Flatten(items), at) && NoMarks(items)
    requires depth >= 1 && (x.Some? ==> x.value < at)
    ensures Scan(ls, at, depth, x) == Scan(ls, at + |Flatten(items)|, depth, x)
    decreases items, 0
  {
    hide Scan, Holds, FlattenItem, NoMarksItem;
    if items != [] {
      HoldsParts(ls, FlattenItem(items[0]), Flatten(items[1..]), at);
      CrossItem(ls, items[0], at, depth, x);
      Cross(ls, items[1..], at + |FlattenItem(items[0])|, depth, x);
    }
  }

  /** The extent of a flattened block is where its own {$except} and {$endtry} are. */
  lemma BlockExtent(a: seq<Item>, b: seq<Item>, rest: seq<string>)
    requires NoMarks(a) && NoMarks(b)
    ensures var ls := [TRY] + Flatten(a) + [EXCEPT] + Flatten(b) + [END] + rest;
      Scan(ls, 1, 1, None) == Some(Extent(Some(1 + |Flatten(a)|), 2 + |Flatten(a)| + |Flatten(b)|))
  {
    hide Flatten, NoMarks, KindOf;
    var fa, fb := Flatten(a), Flatten(b);
    var block := [TRY] + fa + [EXCEPT] + fb + [END];
    var ls := block + rest;
    assert Holds(ls, block, 0);
    BlockParts(ls, fa, fb, 0);
    MarkKinds();
    Cross(ls, a, 1, 1, None);
    Cross(ls, b, 2 + |fa|, 1, Some(1 + |fa|));
  }

  lemma {:induction false} SelectItem(item: Item, rest: seq<string>, guard: Guard)
    requires NoMarksItem(item)
    ensures Select(FlattenItem(item) + rest, guard) == Then(EvaluateItem(item, guard), Select(rest, guard))
    decreases item, 1
  {
    hide Scan, Flatten, NoMarks, Then, Evaluate;
    var ls := FlattenItem(item) + rest;
    match item
    case Line(text) =>
      assert ls[1..] == rest;
      assert ls[0] == text;
    case Block(a, b) =>
      hide Select, KindOf;
      var fa, fb := Flatten(a), Flatten(b);
      BlockExtent(a, b, rest);
      MarkKinds();
      SelectFlattened(a, guard);
      SelectFlattened(b, guard);
      var m := 1 + |fa|;
      var e := m + 1 + |fb|;
      SplitBlock(fa, fb, rest);
      SelectBlock(ls, m, e, guard);
      assert Choose(fa, fb, guard) == EvaluateItem(item, guard);
  }

  lemma SplitBlock(fa: seq<string>, fb: seq<string>, rest: seq<string>)
    ensures var ls := [TRY] + fa + [EXCEPT] + fb + [END] + rest;
      var m := 1 + |fa|;
      var e := m + 1 + |fb|;
      ls[0] == TRY && ls[1..m] == fa && ls[m + 1..e] == fb && ls[e + 1..] == rest
  {
  }

  lemma {:induction false} SelectAll(items: seq<Item>, rest: seq<string>, guard: Guard)
    requires NoMarks(items)
    ensures Select(Flatten(items) + rest, guard) == Then(Evaluate(items, guard), Select(rest, guard))
    decreases items, 0
  {
    hide Select, FlattenItem, EvaluateItem, NoMarksItem;
    if items == [] {
      assert Flatten(items) + rest == rest;
      ThenEmpty(Select(rest, guard));
    } else {
      var after := Flatten(items[1..]) + rest;
      assert Flatten(items) + rest == FlattenItem(items[0]) + after;
      SelectItem(items[0], after, guard);
      SelectAll(items[1..], rest, guard);
      ThenThen(EvaluateItem(items[0], guard), Evaluate(items[1..], guard), Select(rest, guard));
    }
  }

  lemma ThenEmpty(o: Outcome)
    ensures Then(Selected([], []), o) == o
    ensures o.Selected? ==> Then(o, Selected([], [])) == o
    ensures o.Failed? ==> Then(o, Selected([], [])) == o
  {
  }

  lemma ThenThen(a: Outcome, b: Outcome, c: Outcome)
    ensures Then(a, Then(b, c)) == Then(Then(a, b), c)
  {
    if a.Selected? && b.Selected? {
      ThenAssoc(a, b, c);
    }
  }

  /** On the flattening of any tree of blocks the scanning selector yields the structured evaluation
      of the tree: the chosen lines in order, and the messages. */
  lemma {:induction false} SelectFlattened(items: seq<Item>, guard: Guard)
    requires NoMarks(items)
    ensures Select(Flatten(items), guard) == Evaluate(items, guard)
    decreases items, 2
  {
    SelectAll(items, [], guard);
    assert Flatten(items) + [] == Flatten(items);
    ThenEmpty(Evaluate(items, guard));
  }

  /** A tree never fails to be selected. */
  lemma {:induction false} EvaluateSucceeds(items: seq<Item>, guard: Guard)
    ensures Evaluate(items, guard).Selected?
    decreases items, 0
  {
    if items != [] {
      match items[0]
      case Line(text) => EvaluateSucceeds(items[1..], guard);
      case Block(a, b) =>
        EvaluateSucceeds(a, guard);
        EvaluateSucceeds(b, guard);
        EvaluateSucceeds(items[1..], guard);
    }
  }

  /** Whatever the input, a successful selection has no marker left. */
  lemma {:induction false} SelectedAreUnmarked(ls: seq<string>, guard: Guard)
    requires Select(ls, guard).Selected?
    ensures forall i :: 0 <= i < |Select(ls, guard).lines| ==> KindOf(Select(ls, guard).lines[i]).Plain?
    decreases |ls|
  {
    hide Scan, KindOf;
    if ls != [] {
      if KindOf(ls[0]).Plain? {
        SelectedAreUnmarked(ls[1..], guard);
      } else {
        assert KindOf(ls[0]).TryMark?;
        var e := Scan(ls, 1, 1, None).value;
        var tryLines, exceptLines := ls[1..e.exceptAt.value], ls[e.exceptAt.value + 1..e.endAt];
        if guard(tryLines).None? {
          SelectedAreUnmarked(tryLines, guard);
        } else {
          SelectedAreUnmarked(exceptLines, guard);
        }
        SelectedAreUnmarked(ls[e.endAt + 1..], guard);
      }
    }
  }
}
