/** A label that two lines define: what the sizes of the lines between them must add up to. */
module RepeatedLabels {
  import opened Text
  import opened ScriptText
  import opened Layout
  import opened LooseLabels
  import opened LayoutAgreement

  /** A label defined in two places converges only if both get the same address. */
  lemma SecondDefinition(lines: seq<string>, i: nat, j: nat, k: nat, ctx: Context, declared: seq<Label>,
                         labels: seq<Label>, passes: nat)
    requires i < |lines| && j < |lines| && Ordinary(lines)
    requires Resolve(lines, ctx, declared, passes) == Resolved(labels)
    requires k < |labels| && Binds(lines[i], k, ctx, labels) && Binds(lines[j], k, ctx, labels)
    ensures Settled(lines, ctx, labels) && Place(lines, i, ctx, labels) == Place(lines, j, ctx, labels)
  {
    hide SizeTo, Resolve, Ordinary, Binds, Settled;
    ResolvedIsSettled(lines, ctx, declared, passes);
    LabelIsWhereDefined(lines, i, k, ctx, labels);
    LabelIsWhereDefined(lines, j, k, ctx, labels);
  }

  // ----- how far two lines are apart -----

  /** The line does not move the script to another block: it defines at most a label. */
  predicate Level(line: Line, ctx: Context, labels: seq<Label>) {
    line.Definition? ==> FindAlloc(ctx.allocs, line.name).None? && LabelIndex(labels, line.name) < |labels|
  }

  predicate AllLevel(lines: seq<string>, i: nat, j: nat, ctx: Context, labels: seq<Label>)
    requires i <= j <= |lines|
  {
    forall m :: i <= m < j ==> Level(Classify(lines[m]), ctx, labels)
  }

  function Advanced(size: Size): nat {
    if size.Advance? then size.bytes else 0
  }

  /** The bytes a line takes in the settled pass. */
  function Taken(lines: seq<string>, n: nat, ctx: Context, labels: seq<Label>): nat
    requires n < |lines| && Ordinary(lines) && Settled(lines, ctx, labels)
  {
    var line := Classify(lines[n]);
    if IsCode(line) then Advanced(SizeOf(line, Place(lines, n, ctx, labels), ctx, labels)) else 0
  }

  function Distance(lines: seq<string>, i: nat, j: nat, ctx: Context, labels: seq<Label>): nat
    requires i <= j <= |lines| && Ordinary(lines) && Settled(lines, ctx, labels)
  {
    if i == j then 0 else Distance(lines, i, j - 1, ctx, labels) + Taken(lines, j - 1, ctx, labels)
  }

  lemma LevelStep(line: Line, a: U64, b: U64, ctx: Context, labels: seq<Label>)
    requires !line.Reassemble? && Level(line, ctx, labels)
    requires SizeLine(line, Sizing(a, labels, false), ctx) == Sizing(b, labels, false)
    ensures b == Wrap(a + if IsCode(line) then Advanced(SizeOf(line, a, ctx, labels)) else 0)
  {
    hide SizeOf, ResolveAddress, FindAlloc, LabelIndex, Wrap;
    WholeAddress(a);
  }

  lemma WrapTwice(a: U64, n: nat, m: nat)
    ensures Wrap(Wrap(a + n) + m) == Wrap(a + (n + m))
  {
    var turns := (a + n) / TWO_64;
    assert a + n == Wrap(a + n) + turns * TWO_64;
    Shift(Wrap(a + n) + m, turns);
    assert a + (n + m) == Wrap(a + n) + m + turns * TWO_64;
  }

  lemma {:induction false} PlacesApart(lines: seq<string>, i: nat, j: nat, ctx: Context, labels: seq<Label>)
    requires i <= j <= |lines| && Ordinary(lines) && Settled(lines, ctx, labels) && AllLevel(lines, i, j, ctx, labels)
    ensures Place(lines, j, ctx, labels) == Wrap(Place(lines, i, ctx, labels) + Distance(lines, i, j, ctx, labels))
    decreases j
  {
    hide SizeTo, SizeLine, SizeOf, Classify, Ordinary, Settled, Place, Level, Wrap;
    if i == j {
      WholeAddress(Place(lines, i, ctx, labels));
    } else {
      PlacesApart(lines, i, j - 1, ctx, labels);
      SettledStep(lines, j - 1, ctx, labels);
      OrdinaryLine(lines, j - 1);
      LevelStep(Classify(lines[j - 1]), Place(lines, j - 1, ctx, labels), Place(lines, j, ctx, labels), ctx, labels);
      WrapTwice(Place(lines, i, ctx, labels), Distance(lines, i, j - 1, ctx, labels), Taken(lines, j - 1, ctx, labels));
    }
  }

  /** Both definitions of one label get the same address exactly when the lines from one to the other take a
      multiple of 2^64 bytes. */
  lemma SameAddressIff(lines: seq<string>, i: nat, j: nat, ctx: Context, labels: seq<Label>)
    requires i <= j <= |lines| && Ordinary(lines) && Settled(lines, ctx, labels) && AllLevel(lines, i, j, ctx, labels)
    ensures Place(lines, i, ctx, labels) == Place(lines, j, ctx, labels)
       <==> Distance(lines, i, j, ctx, labels) % TWO_64 == 0
  {
    hide SizeTo, Ordinary, Settled, Place, AllLevel, Distance, Wrap;
    PlacesApart(lines, i, j, ctx, labels);
    var a, d := Place(lines, i, ctx, labels), Distance(lines, i, j, ctx, labels);
    WholeAddress(a);
    WrapCancels(a, d, 0);
    WrapIs(d);
    WrapIs(0);
  }

  lemma WrapIs(n: nat)
    ensures Wrap(n) == n % TWO_64
  {
  }

  // ----- sizes known before sizing -----

  /** Wherever the line stands, and whatever addresses the labels have, it takes between `least` and `most` bytes,
      if it can be sized at all. */
  ghost predicate Takes(line: Line, ctx: Context, declared: seq<Label>, least: nat, most: nat) {
    if IsCode(line) then
      forall a: U64, labels: seq<Label> :: SameNames(declared, labels) && SizeOf(line, a, ctx, labels).Advance? ==>
        least <= SizeOf(line, a, ctx, labels).bytes <= most
    else least == most == 0
  }

  /** Each line from `i` to `j` takes a number of bytes between its two bounds. */
  ghost predicate AllTake(lines: seq<string>, i: nat, j: nat, ctx: Context, declared: seq<Label>,
                          least: seq<nat>, most: seq<nat>)
    requires i <= j <= |lines| && |least| == |most| == |lines|
  {
    forall m :: i <= m < j ==> Takes(Classify(lines[m]), ctx, declared, least[m], most[m])
  }

  function Sum(sizes: seq<nat>, i: nat, j: nat): nat
    requires i <= j <= |sizes|
  {
    if i == j then 0 else Sum(sizes, i, j - 1) + sizes[j - 1]
  }

  /** The bytes of a line whose size only its own text decides. */
  function OwnSize(line: Line): Option<nat> {
    match line
    case ReadMem(args) =>
      Some(if AfterComma(args).None? || Stoull(AfterComma(args).value, 0).None? then 0
           else Stoull(AfterComma(args).value, 0).value.value)
    case Nop(count) => Some(if NopCount(count).None? then 0 else NopCount(count).value)
    case Ds(text) => Some(|text|)
    case Data(_, _) => None
    case Instruction(_) => None
    case _ => Some(0)
  }

  /** For all lines but data and instructions the bounds need nothing of the assembler. */
  lemma OwnSizeTaken(line: Line, ctx: Context, declared: seq<Label>)
    requires OwnSize(line).Some?
    ensures Takes(line, ctx, declared, OwnSize(line).value, OwnSize(line).value)
  {
    hide SubstituteForSizing, Stoull, NopCount, AfterComma;
  }

  lemma TakenIsBounded(line: Line, a: U64, b: U64, ctx: Context, declared: seq<Label>, labels: seq<Label>,
                       least: nat, most: nat)
    requires Takes(line, ctx, declared, least, most) && SameNames(declared, labels) && !line.Reassemble?
    requires SizeLine(line, Sizing(a, labels, false), ctx) == Sizing(b, labels, false)
    ensures least <= (if IsCode(line) then Advanced(SizeOf(line, a, ctx, labels)) else 0) <= most
  {
    hide SizeOf, ResolveAddress, FindAlloc, LabelIndex, SameNames;
  }

  lemma {:induction false} DistanceIsBounded(lines: seq<string>, i: nat, j: nat, ctx: Context, declared: seq<Label>,
                                             labels: seq<Label>, least: seq<nat>, most: seq<nat>)
    requires i <= j <= |lines| && |least| == |most| == |lines|
    requires Ordinary(lines) && Settled(lines, ctx, labels) && SameNames(declared, labels)
    requires AllTake(lines, i, j, ctx, declared, least, most)
    ensures Sum(least, i, j) <= Distance(lines, i, j, ctx, labels) <= Sum(most, i, j)
    decreases j
  {
    hide SizeTo, SizeLine, SizeOf, Classify, Ordinary, Settled, Place, Takes, SameNames;
    if i < j {
      DistanceIsBounded(lines, i, j - 1, ctx, declared, labels, least, most);
      SettledStep(lines, j - 1, ctx, labels);
      OrdinaryLine(lines, j - 1);
      TakenIsBounded(Classify(lines[j - 1]), Place(lines, j - 1, ctx, labels), Place(lines, j, ctx, labels), ctx,
                     declared, labels, least[j - 1], most[j - 1]);
    }
  }

  lemma NoFullTurn(d: nat, least: nat, most: nat)
    requires least <= d <= most && 0 < least % TWO_64 && least % TWO_64 + (most - least) < TWO_64
    ensures d % TWO_64 != 0
  {
    var turns := least / TWO_64;
    Shift(least % TWO_64 + (d - least), turns);
    assert d == least % TWO_64 + (d - least) + turns * TWO_64;
  }

  lemma LevelByName(lines: seq<string>, i: nat, j: nat, ctx: Context, a: seq<Label>, b: seq<Label>)
    requires i <= j <= |lines| && SameNames(a, b) && AllLevel(lines, i, j, ctx, a)
    ensures AllLevel(lines, i, j, ctx, b)
  {
    hide Classify, FindAlloc, LabelIndex;
    forall m | i <= m < j ensures Level(Classify(lines[m]), ctx, b) {
      var line := Classify(lines[m]);
      assert Level(line, ctx, a);
      if line.Definition? {
        SameNamesSameIndex(a, b, line.name);
      }
    }
  }

  /** A label defined twice within one block never converges, however many passes are made, when the lines from one
      definition to the other cannot take a multiple of 2^64 bytes. */
  lemma DefinedTwiceNeverConverges(lines: seq<string>, i: nat, j: nat, k: nat, ctx: Context, declared: seq<Label>,
                                   passes: nat, least: seq<nat>, most: seq<nat>)
    requires i < j < |lines| && |least| == |most| == |lines| && Ordinary(lines) && k < |declared|
    requires Binds(lines[i], k, ctx, declared) && Binds(lines[j], k, ctx, declared)
    requires AllLevel(lines, i, j, ctx, declared) && AllTake(lines, i, j, ctx, declared, least, most)
    requires 0 < Sum(least, i, j) % TWO_64
    requires Sum(least, i, j) % TWO_64 + (Sum(most, i, j) - Sum(least, i, j)) < TWO_64
    ensures !Resolve(lines, ctx, declared, passes).Resolved?
  {
    hide SizeTo, Resolve, Ordinary, Binds, Settled, Classify, SizeLine, AllLevel, AllTake, Distance, Sum, Place;
    var r := Resolve(lines, ctx, declared, passes);
    if r.Resolved? {
      var labels := r.labels;
      ResolvedIsSettled(lines, ctx, declared, passes);
      BindsByName(lines[i], k, ctx, declared, labels);
      BindsByName(lines[j], k, ctx, declared, labels);
      LevelByName(lines, i, j, ctx, declared, labels);
      SameAddressIff(lines, i, j, ctx, labels);
      DistanceIsBounded(lines, i, j, ctx, declared, labels, least, most);
      NoFullTurn(Distance(lines, i, j, ctx, labels), Sum(least, i, j), Sum(most, i, j));
      SecondDefinition(lines, i, j, k, ctx, declared, labels, passes);
    }
  }

  // ----- lines that only their own text sizes -----

  predicate OwnSized(lines: seq<string>, i: nat, j: nat)
    requires i <= j <= |lines|
  {
    forall m :: i <= m < j ==> OwnSize(Classify(lines[m])).Some?
  }

  function OwnSizes(lines: seq<string>): (sizes: seq<nat>)
    ensures |sizes| == |lines|
    ensures forall m :: 0 <= m < |lines| ==> sizes[m] == SizeOrZero(Classify(lines[m]))
  {
    seq(|lines|, m requires 0 <= m < |lines| => SizeOrZero(Classify(lines[m])))
  }

  function SizeOrZero(line: Line): nat {
    if OwnSize(line).Some? then OwnSize(line).value else 0
  }

  /** With NOP, DS, READMEM, FILLMEM and directives between, nothing is asked of the assembler: the label never
      converges unless the sizes written there add up to a multiple of 2^64. */
  lemma FillerNeverConverges(lines: seq<string>, i: nat, j: nat, k: nat, ctx: Context, declared: seq<Label>, passes: nat)
    requires i < j < |lines| && Ordinary(lines) && k < |declared|
    requires Binds(lines[i], k, ctx, declared) && Binds(lines[j], k, ctx, declared)
    requires AllLevel(lines, i, j, ctx, declared) && OwnSized(lines, i, j)
    requires Sum(OwnSizes(lines), i, j) % TWO_64 != 0
    ensures !Resolve(lines, ctx, declared, passes).Resolved?
  {
    hide Resolve, Ordinary, Binds, AllLevel, Classify, OwnSize, Takes, Sum;
    var sizes := OwnSizes(lines);
    forall m | i <= m < j ensures Takes(Classify(lines[m]), ctx, declared, sizes[m], sizes[m]) {
      OwnSizeTaken(Classify(lines[m]), ctx, declared);
    }
    DefinedTwiceNeverConverges(lines, i, j, k, ctx, declared, passes, sizes, sizes);
  }
}
