/** The replacements of a script's symbols, longest names first: which they are, and which comes first of those
    with one name. */
module SymbolOrder {
  import opened Text
  import opened ScriptText
  import opened TokenCuts
  import opened WordMeanings
  import opened Layout

  /** The value of the first replacement of that name. */
  function FirstValue(reps: seq<Replacement>, name: string): (v: Option<string>)
    ensures v.None? ==> forall r :: r in reps ==> r.name != name
  {
    if reps == [] then None
    else if reps[0].name == name then Some(reps[0].value)
    else FirstValue(reps[1..], name)
  }

  lemma {:induction false} FirstValueNone(reps: seq<Replacement>, name: string)
    requires forall r :: r in reps ==> r.name != name
    ensures FirstValue(reps, name).None?
  {
    if reps != [] {
      FirstValueNone(reps[1..], name);
    }
  }

  predicate Sorted(reps: seq<Replacement>) {
    forall i, j :: 0 <= i < j < |reps| ==> |reps[i].name| >= |reps[j].name|
  }

  lemma {:induction false} InsertKeepsAll(r: Replacement, rs: seq<Replacement>)
    requires Sorted(rs)
    ensures Sorted(InsertByLength(r, rs))
    ensures forall x :: x in InsertByLength(r, rs) <==> x == r || x in rs
    ensures forall name :: FirstValue(InsertByLength(r, rs), name)
                        == if FirstValue(rs, name).Some? then FirstValue(rs, name)
                           else if r.name == name then Some(r.value) else None
  {
    if rs == [] {
    } else if |rs[0].name| < |r.name| {
      InsertFirst(r, rs);
    } else {
      InsertKeepsAll(r, rs[1..]);
      InsertLater(r, rs);
    }
  }

  lemma InsertFirst(r: Replacement, rs: seq<Replacement>)
    requires Sorted(rs) && rs != [] && |rs[0].name| < |r.name|
    ensures Sorted([r] + rs) && forall x :: x in [r] + rs <==> x == r || x in rs
    ensures forall name :: FirstValue([r] + rs, name)
                        == if FirstValue(rs, name).Some? then FirstValue(rs, name)
                           else if r.name == name then Some(r.value) else None
  {
    assert ([r] + rs)[1..] == rs;
    forall x | x in rs ensures x.name != r.name {
      var i :| 0 <= i < |rs| && rs[i] == x;
    }
    FirstValueNone(rs, r.name);
  }

  lemma InsertLater(r: Replacement, rs: seq<Replacement>)
    requires Sorted(rs) && rs != [] && |rs[0].name| >= |r.name|
    requires Sorted(InsertByLength(r, rs[1..]))
    requires forall x :: x in InsertByLength(r, rs[1..]) <==> x == r || x in rs[1..]
    ensures Sorted([rs[0]] + InsertByLength(r, rs[1..]))
    ensures forall x :: x in [rs[0]] + InsertByLength(r, rs[1..]) <==> x == r || x in rs
  {
    hide InsertByLength, Sorted;
    assert rs == [rs[0]] + rs[1..];
    forall x | x in rs[1..] ensures |rs[0].name| >= |x.name| {
      FirstIsLongest(rs, x);
    }
    LongestInFront(rs[0], InsertByLength(r, rs[1..]));
  }

  lemma FirstIsLongest(rs: seq<Replacement>, x: Replacement)
    requires Sorted(rs) && rs != [] && x in rs[1..]
    ensures |rs[0].name| >= |x.name|
  {
    var i :| 0 <= i < |rs[1..]| && rs[1..][i] == x;
    assert rs[i + 1] == x;
  }

  lemma LongestInFront(r: Replacement, rs: seq<Replacement>)
    requires Sorted(rs) && forall x :: x in rs ==> |r.name| >= |x.name|
    ensures Sorted([r] + rs)
  {
  }

  /** Sorting loses nothing, and of two replacements with one name the one declared first stays first. */
  lemma {:induction false} SortKeepsAll(rs: seq<Replacement>)
    ensures Sorted(LongestFirst(rs))
    ensures forall x :: x in LongestFirst(rs) <==> x in rs
    ensures forall name :: FirstValue(LongestFirst(rs), name) == FirstValue(rs, name)
    decreases |rs|
  {
    hide InsertByLength, Sorted;
    if rs == [] {
      assert Sorted([]) by { EmptySorted(); }
    } else {
      var r, front := rs[|rs| - 1], rs[..|rs| - 1];
      SortKeepsAll(front);
      InsertKeepsAll(r, LongestFirst(front));
      assert rs == front + [r];
      forall name
        ensures FirstValue(front + [r], name)
             == if FirstValue(front, name).Some? then FirstValue(front, name)
                else if r.name == name then Some(r.value) else None
      {
        FirstOfAppended(front, [r], name);
      }
    }
  }

  lemma EmptySorted()
    ensures Sorted([])
  {
  }

  lemma {:induction false} FirstOfAppended(a: seq<Replacement>, b: seq<Replacement>, name: string)
    ensures FirstValue(a + b, name) == if FirstValue(a, name).Some? then FirstValue(a, name) else FirstValue(b, name)
  {
    if a == [] {
      assert a + b == b;
    } else {
      assert (a + b)[1..] == a[1..] + b;
      FirstOfAppended(a[1..], b, name);
    }
  }

  // ----- where the replacements come from -----

  function AllReplacements(ctx: Context, labels: seq<Label>): seq<Replacement> {
    LongestFirst(DefineReplacements(ctx.defines)) + LongestFirst(AllocReplacements(ctx.allocs))
      + LongestFirst(LabelReplacements(labels))
  }

  lemma {:induction false} DefineReplacementsAre(defines: seq<Define>)
    ensures forall r :: r in DefineReplacements(defines) <==> Define(r.name, r.value) in defines
  {
    if defines != [] {
      DefineReplacementsAre(defines[1..]);
      assert defines == [defines[0]] + defines[1..];
      assert DefineReplacements(defines) == [Replacement(defines[0].name, defines[0].value)] + DefineReplacements(defines[1..]);
    }
  }

  lemma {:induction false} AllocReplacementsAre(allocs: seq<Alloc>, r: Replacement)
    ensures r in AllocReplacements(allocs)
       <==> exists i :: 0 <= i < |allocs| && allocs[i].address != 0 && r == Replacement(allocs[i].name, Hex(allocs[i].address))
  {
    hide Hex;
    if allocs != [] {
      AllocReplacementsAre(allocs[1..], r);
      assert forall i :: 0 <= i < |allocs| - 1 ==> allocs[1..][i] == allocs[i + 1];
      if r in AllocReplacements(allocs[1..]) {
        var i :| 0 <= i < |allocs| - 1 && allocs[1..][i].address != 0 &&
                 r == Replacement(allocs[1..][i].name, Hex(allocs[1..][i].address));
        assert r == Replacement(allocs[i + 1].name, Hex(allocs[i + 1].address));
      }
    }
  }

  lemma {:induction false} LabelReplacementsAre(labels: seq<Label>, r: Replacement)
    ensures r in LabelReplacements(labels)
       <==> exists i :: 0 <= i < |labels| && labels[i].address != 0 && r == Replacement(labels[i].name, Hex(labels[i].address))
  {
    hide Hex;
    if labels != [] {
      LabelReplacementsAre(labels[1..], r);
      assert forall i :: 0 <= i < |labels| - 1 ==> labels[1..][i] == labels[i + 1];
      if r in LabelReplacements(labels[1..]) {
        var i :| 0 <= i < |labels| - 1 && labels[1..][i].address != 0 &&
                 r == Replacement(labels[1..][i].name, Hex(labels[1..][i].address));
        assert r == Replacement(labels[i + 1].name, Hex(labels[i + 1].address));
      }
    }
  }

  /** The first label of a name stands for it, once it has an address. */
  lemma {:induction false} FirstLabelStands(labels: seq<Label>, k: nat)
    requires k < |labels| && LabelIndex(labels, labels[k].name) == k && labels[k].address != 0
    ensures FirstValue(LabelReplacements(labels), labels[k].name) == Some(Hex(labels[k].address))
  {
    hide Hex;
    if k > 0 {
      assert labels[0].name != labels[k].name;
      FirstLabelStands(labels[1..], k - 1);
    }
    FirstOfAppended(if labels[0].address == 0 then [] else [Replacement(labels[0].name, Hex(labels[0].address))],
                    LabelReplacements(labels[1..]), labels[k].name);
  }

  lemma HexIsWord(address: U64)
    ensures IsIdentifier(Hex(address)) && NoQuotes(Hex(address))
  {
    DigitsForm(address, 16);
  }

  predicate NoQuotes(s: string) {
    forall i :: 0 <= i < |s| ==> !IsQuote(s[i])
  }

  /** Replacements by other names do not touch a word. */
  lemma {:induction false} MeaningSkips(w: string, a: seq<Replacement>, b: seq<Replacement>)
    requires FirstValue(a, w).None?
    ensures Meaning(w, a + b) == Meaning(w, b)
    decreases |a|
  {
    hide ReplaceAll;
    if a == [] {
      assert a + b == b;
    } else {
      assert (a + b)[1..] == a[1..] + b;
      MeaningSkips(w, a[1..], b);
    }
  }
}
