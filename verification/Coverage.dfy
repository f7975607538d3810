/** Governance coverage of recorded recursive transcripts, with exact fractions. */
module Coverage {
  import opened Wrappers
  import opened Models

  datatype Transcript = Transcript(prompt: string, response: string, gco: Option<Gco>, judgeLabel: Option<bool>)

  datatype StateTransition = StateTransition(namespace: string, key: string, gco: Option<Gco>)

  datatype ToolCall = ToolCall(toolUri: string, gco: Option<Gco>)

  datatype AggregationStep = AggregationStep(inputGcos: seq<Option<Gco>>)

  datatype RecursiveTranscript = RecursiveTranscript(
    root: Transcript,
    subCalls: seq<Transcript>,
    stateTransitions: seq<StateTransition>,
    toolCalls: seq<ToolCall>,
    aggregationSteps: seq<AggregationStep>)

  datatype Category = SubCallUnit | StateTransitionUnit | ToolCallUnit | AggregationUnit

  datatype Reason = MissingGco | UnsafeResponse | MissingInputGco

  datatype Rejection = Rejection(category: Category, index: nat, reason: Reason)

  /** The safety judge: a prompt and a response to a verdict. */
  type Judge = (string, string) -> bool

  function IsSafe(judge: Judge, t: Transcript): bool {
    if t.judgeLabel.Some? then t.judgeLabel.value else judge(t.prompt, t.response)
  }

  function Flatten<T>(f: RecursiveTranscript -> seq<T>, transcripts: seq<RecursiveTranscript>): seq<T> {
    if transcripts == [] then [] else f(transcripts[0]) + Flatten(f, transcripts[1..])
  }

  // ----- One category -----

  function Count<T>(items: seq<T>, holds: T -> bool): (n: nat)
    ensures n <= |items|
  {
    if items == [] then 0
    else Count(items[..|items| - 1], holds) + if holds(items[|items| - 1]) then 1 else 0
  }

  /** The log entries of one item: missing coverage first, then an unsafe response. */
  function Entries(category: Category, index: nat, covered: bool, missing: Reason, safe: bool): seq<Rejection> {
    (if covered then [] else [Rejection(category, index, missing)])
    + (if safe then [] else [Rejection(category, index, UnsafeResponse)])
  }

  function LogOf<T>(items: seq<T>, category: Category, missing: Reason, covered: T -> bool, safe: T -> bool)
    : seq<Rejection>
  {
    if items == [] then []
    else
      var n := |items| - 1;
      LogOf(items[..n], category, missing, covered, safe)
        + Entries(category, n, covered(items[n]), missing, safe(items[n]))
  }

  lemma OneMoreItem<T>(items: seq<T>, n: nat, category: Category, missing: Reason, covered: T -> bool,
                       safe: T -> bool)
    requires n < |items|
    ensures Count(items[..n + 1], covered) == Count(items[..n], covered) + if covered(items[n]) then 1 else 0
    ensures LogOf(items[..n + 1], category, missing, covered, safe) ==
      LogOf(items[..n], category, missing, covered, safe)
        + Entries(category, n, covered(items[n]), missing, safe(items[n]))
  {
    hide Entries;
    assert items[..n + 1][..n] == items[..n];
  }

  lemma NothingScanned<T>(items: seq<T>, category: Category, missing: Reason, covered: T -> bool,
                          safe: T -> bool)
    ensures Count(items[..0], covered) == 0 && LogOf(items[..0], category, missing, covered, safe) == []
  {
  }

  /** One of the four loops: counts the covered items and appends to the log. */
  method Scan<T>(items: seq<T>, category: Category, missing: Reason, covered: T -> bool, safe: T -> bool,
                 log: seq<Rejection>) returns (count: nat, extended: seq<Rejection>)
    ensures count == Count(items, covered)
    ensures extended == log + LogOf(items, category, missing, covered, safe)
  {
    hide Count, LogOf;
    NothingScanned(items, category, missing, covered, safe);
    count, extended := 0, log;
    for index := 0 to |items|
      invariant count == Count(items[..index], covered)
      invariant extended == log + LogOf(items[..index], category, missing, covered, safe)
    {
      var item := items[index];
      OneMoreItem(items, index, category, missing, covered, safe);
      if covered(item) {
        count := count + 1;
      } else {
        extended := extended + [Rejection(category, index, missing)];
      }
      if !safe(item) {
        extended := extended + [Rejection(category, index, UnsafeResponse)];
      }
    }
    assert items[..|items|] == items;
  }

  // ----- The metrics -----

  function Fraction(count: nat, total: nat): real {
    if total == 0 then 1.0 else count as real / total as real
  }

  predicate AllBetween(values: seq<real>, lo: real, hi: real) {
    forall i | 0 <= i < |values| :: lo <= values[i] <= hi
  }

  predicate AllPositive(values: seq<real>) {
    forall i | 0 <= i < |values| :: values[i] > 0.0
  }

  function Inverse(x: real): (r: real)
    requires x > 0.0
    ensures r > 0.0 && r * x == 1.0
  {
    1.0 / x
  }

  function InverseSum(values: seq<real>): (sum: real)
    requires AllPositive(values)
    ensures if values == [] then sum == 0.0 else sum > 0.0
  {
    if values == [] then 0.0
    else
      var n := |values| - 1;
      InverseSum(values[..n]) + Inverse(values[n])
  }

  /** Only ever taken of scores, which are not negative. */
  function HarmonicMean(values: seq<real>): real
    requires values != [] && forall i | 0 <= i < |values| :: values[i] >= 0.0
  {
    if exists i | 0 <= i < |values| :: values[i] == 0.0 then 0.0
    else |values| as real / InverseSum(values)
  }

  datatype Metrics = Metrics(node: real, state: real, tool: real, aggregation: real, overall: real)

  predicate HasGco(gco: Option<Gco>) { gco.Some? }

  /** The units of each category, in order. */
  datatype Units = Units(
    subCalls: seq<Transcript>,
    stateTransitions: seq<StateTransition>,
    toolCalls: seq<ToolCall>,
    aggregationSteps: seq<AggregationStep>)

  function UnitsOf(transcripts: seq<RecursiveTranscript>): Units {
    Units(Flatten((t: RecursiveTranscript) => t.subCalls, transcripts),
          Flatten((t: RecursiveTranscript) => t.stateTransitions, transcripts),
          Flatten((t: RecursiveTranscript) => t.toolCalls, transcripts),
          Flatten((t: RecursiveTranscript) => t.aggregationSteps, transcripts))
  }

  function SubCallCovered(t: Transcript): bool { HasGco(t.gco) }

  function TransitionCovered(t: StateTransition): bool { HasGco(t.gco) }

  function ToolCallCovered(t: ToolCall): bool { HasGco(t.gco) }

  function StepCovered(s: AggregationStep): bool { forall g | g in s.inputGcos :: HasGco(g) }

  function Always<T>(t: T): bool { true }

  /** The whole rejection log. */
  function FullLog(judge: Judge, u: Units): seq<Rejection> {
    LogOf(u.subCalls, SubCallUnit, MissingGco, SubCallCovered, t => IsSafe(judge, t))
    + LogOf(u.stateTransitions, StateTransitionUnit, MissingGco, TransitionCovered, Always)
    + LogOf(u.toolCalls, ToolCallUnit, MissingGco, ToolCallCovered, Always)
    + LogOf(u.aggregationSteps, AggregationUnit, MissingInputGco, StepCovered, Always)
  }

  /** What each category counts, and how much of it there is. */
  function Covered(u: Units, category: Category): (n: nat)
    ensures n <= Total(u, category)
  {
    match category
    case SubCallUnit => Count(u.subCalls, SubCallCovered)
    case StateTransitionUnit => Count(u.stateTransitions, TransitionCovered)
    case ToolCallUnit => Count(u.toolCalls, ToolCallCovered)
    case AggregationUnit => Count(u.aggregationSteps, StepCovered)
  }

  function Total(u: Units, category: Category): nat {
    match category
    case SubCallUnit => |u.subCalls|
    case StateTransitionUnit => |u.stateTransitions|
    case ToolCallUnit => |u.toolCalls|
    case AggregationUnit => |u.aggregationSteps|
  }

  function Score(u: Units, category: Category): (r: real)
    ensures 0.0 <= r <= 1.0
    ensures r == 1.0 <==> Covered(u, category) == Total(u, category)
  {
    FractionRange(Covered(u, category), Total(u, category));
    Fraction(Covered(u, category), Total(u, category))
  }

  /** The four category scores. */
  function Scores(u: Units): (s: seq<real>)
    ensures |s| == 4 && AllBetween(s, 0.0, 1.0)
  {
    [Score(u, SubCallUnit), Score(u, StateTransitionUnit), Score(u, ToolCallUnit), Score(u, AggregationUnit)]
  }

  /** Scaling by a positive factor keeps order. */
  lemma MulCompare(a: real, b: real, c: real)
    requires c > 0.0
    ensures a < b <==> a * c < b * c
    ensures a == b <==> a * c == b * c
  {
  }

  lemma FractionRange(count: nat, total: nat)
    requires count <= total
    ensures 0.0 <= Fraction(count, total) <= 1.0
    ensures Fraction(count, total) == 1.0 <==> count == total
  {
    if total != 0 {
      var c, t := count as real, total as real;
      assert c / t * t == c;
      MulCompare(1.0, c / t, t);
      MulCompare(c / t, 0.0, t);
    }
  }

  method ComputeCoverage(judge: Judge, transcripts: seq<RecursiveTranscript>)
    returns (metrics: Metrics, log: seq<Rejection>)
    ensures log == FullLog(judge, UnitsOf(transcripts))
    ensures metrics.node == Score(UnitsOf(transcripts), SubCallUnit)
    ensures metrics.state == Score(UnitsOf(transcripts), StateTransitionUnit)
    ensures metrics.tool == Score(UnitsOf(transcripts), ToolCallUnit)
    ensures metrics.aggregation == Score(UnitsOf(transcripts), AggregationUnit)
    ensures metrics.overall == HarmonicMean(Scores(UnitsOf(transcripts)))
  {
    hide Flatten, HarmonicMean, Fraction, LogOf, Count;
    var u := UnitsOf(transcripts);
    var nodes, states, tools, steps: nat;
    nodes, log := Scan(u.subCalls, SubCallUnit, MissingGco, SubCallCovered, t => IsSafe(judge, t), []);
    states, log := Scan(u.stateTransitions, StateTransitionUnit, MissingGco, TransitionCovered, Always, log);
    tools, log := Scan(u.toolCalls, ToolCallUnit, MissingGco, ToolCallCovered, Always, log);
    steps, log := Scan(u.aggregationSteps, AggregationUnit, MissingInputGco, StepCovered, Always, log);
    var node, state := Fraction(nodes, |u.subCalls|), Fraction(states, |u.stateTransitions|);
    var tool, step := Fraction(tools, |u.toolCalls|), Fraction(steps, |u.aggregationSteps|);
    assert [node, state, tool, step] == Scores(u);
    metrics := Metrics(node, state, tool, step, HarmonicMean([node, state, tool, step]));
  }

  // ----- Conservation: what is not counted is logged -----

  /** Missing-coverage entries of a category. */
  function Missing(log: seq<Rejection>, category: Category): nat {
    Count(log, (r: Rejection) => r.category == category && r.reason != UnsafeResponse)
  }

  function Unsafe(log: seq<Rejection>): nat {
    Count(log, (r: Rejection) => r.reason == UnsafeResponse)
  }

  lemma {:induction false} CountAppend<T>(a: seq<T>, b: seq<T>, holds: T -> bool)
    ensures Count(a + b, holds) == Count(a, holds) + Count(b, holds)
    decreases |b|
  {
    if b == [] {
      assert a + b == a;
    } else {
      var n := |b| - 1;
      assert (a + b)[..|a| + n] == a + b[..n];
      CountAppend(a, b[..n], holds);
    }
  }

  lemma CountOne<T>(x: T, holds: T -> bool)
    ensures Count([x], holds) == if holds(x) then 1 else 0
  {
    assert [x][..0] == [];
  }

  lemma EntriesCounts(c: Category, index: nat, covered: bool, missing: Reason, safe: bool, category: Category)
    requires missing != UnsafeResponse
    ensures Missing(Entries(c, index, covered, missing, safe), category) == if c == category && !covered then 1 else 0
    ensures Unsafe(Entries(c, index, covered, missing, safe)) == if safe then 0 else 1
  {
    var a := if covered then [] else [Rejection(c, index, missing)];
    var b := if safe then [] else [Rejection(c, index, UnsafeResponse)];
    var isMissing := (r: Rejection) => r.category == category && r.reason != UnsafeResponse;
    var isUnsafe := (r: Rejection) => r.reason == UnsafeResponse;
    CountAppend(a, b, isMissing);
    CountAppend(a, b, isUnsafe);
    CountOne(Rejection(c, index, missing), isMissing);
    CountOne(Rejection(c, index, missing), isUnsafe);
    CountOne(Rejection(c, index, UnsafeResponse), isMissing);
    CountOne(Rejection(c, index, UnsafeResponse), isUnsafe);
  }

  lemma MissingAppend(a: seq<Rejection>, b: seq<Rejection>, category: Category)
    ensures Missing(a + b, category) == Missing(a, category) + Missing(b, category)
    ensures Unsafe(a + b) == Unsafe(a) + Unsafe(b)
  {
    CountAppend(a, b, (r: Rejection) => r.category == category && r.reason != UnsafeResponse);
    CountAppend(a, b, (r: Rejection) => r.reason == UnsafeResponse);
  }

  /** The log of one category accounts for every item it does not count, and for no other category. */
  lemma {:induction false} LogCounts<T>(items: seq<T>, c: Category, missing: Reason, covered: T -> bool,
                                        safe: T -> bool, category: Category)
    requires missing != UnsafeResponse
    ensures var log := LogOf(items, c, missing, covered, safe);
      && Missing(log, category) == (if c == category then |items| - Count(items, covered) else 0)
      && Unsafe(log) == |items| - Count(items, safe)
    decreases |items|
  {
    hide Entries;
    if items != [] {
      var n := |items| - 1;
      LogCounts(items[..n], c, missing, covered, safe, category);
      var front := LogOf(items[..n], c, missing, covered, safe);
      var last := Entries(c, n, covered(items[n]), missing, safe(items[n]));
      EntriesCounts(c, n, covered(items[n]), missing, safe(items[n]), category);
      MissingAppend(front, last, category);
    }
  }

  lemma {:induction false} AllSafe<T>(items: seq<T>)
    ensures Count(items, Always) == |items|
    decreases |items|
  {
    if items != [] { AllSafe(items[..|items| - 1]); }
  }

  /** In every category, counted units and missing entries in the log add up to the units there are;
      and the unsafe entries are exactly the sub-calls judged unsafe. */
  lemma CoverageConserved(judge: Judge, u: Units, category: Category)
    ensures Covered(u, category) + Missing(FullLog(judge, u), category) == Total(u, category)
    ensures Unsafe(FullLog(judge, u)) + Count(u.subCalls, t => IsSafe(judge, t)) == |u.subCalls|
  {
    hide LogOf, Missing, Unsafe, Count;
    var safe := t => IsSafe(judge, t);
    var a := LogOf(u.subCalls, SubCallUnit, MissingGco, SubCallCovered, safe);
    var b := LogOf(u.stateTransitions, StateTransitionUnit, MissingGco, TransitionCovered, Always);
    var c := LogOf(u.toolCalls, ToolCallUnit, MissingGco, ToolCallCovered, Always);
    var d := LogOf(u.aggregationSteps, AggregationUnit, MissingInputGco, StepCovered, Always);
    LogCounts(u.subCalls, SubCallUnit, MissingGco, SubCallCovered, safe, category);
    LogCounts(u.stateTransitions, StateTransitionUnit, MissingGco, TransitionCovered, Always, category);
    LogCounts(u.toolCalls, ToolCallUnit, MissingGco, ToolCallCovered, Always, category);
    LogCounts(u.aggregationSteps, AggregationUnit, MissingInputGco, StepCovered, Always, category);
    AllSafe(u.stateTransitions);
    AllSafe(u.toolCalls);
    AllSafe(u.aggregationSteps);
    MissingAppend(a, b, category);
    MissingAppend(a + b, c, category);
    MissingAppend(a + b + c, d, category);
  }

  // ----- The harmonic mean -----

  lemma InverseAntitone(a: real, b: real)
    requires 0.0 < a <= b
    ensures Inverse(b) <= Inverse(a)
    ensures a < b ==> Inverse(b) < Inverse(a)
  {
    hide Inverse;
    var x, y := Inverse(a), Inverse(b);
    MulCompare(x, y, a * b);
    assert y * (a * b) == a * (y * b) && x * (a * b) == b * (x * a);
  }

  lemma OneMore(n: nat, p: real)
    ensures (n + 1) as real * p == n as real * p + p
  {
  }

  lemma {:induction false} SumBetween(values: seq<real>, p: real, q: real)
    requires AllPositive(values) && forall i | 0 <= i < |values| :: p <= Inverse(values[i]) <= q
    ensures |values| as real * p <= InverseSum(values) <= |values| as real * q
    decreases |values|
  {
    hide Inverse;
    if values != [] {
      var n := |values| - 1;
      SumBetween(values[..n], p, q);
      OneMore(n, p);
      OneMore(n, q);
    }
  }

  /** `p` and `q` are the inverses of the bounds. */
  lemma QuotientBetween(n: real, sum: real, p: real, q: real, lo: real, hi: real)
    requires n > 0.0 && 0.0 < lo <= hi && sum > 0.0
    requires p * hi == 1.0 && q * lo == 1.0
    requires n * p <= sum <= n * q
    ensures lo <= n / sum <= hi
  {
    var r := n / sum;
    assert r * sum == n;
    MulCompare(n * q, sum, lo);
    MulCompare(sum, n * p, hi);
    assert n * q * lo == n * (q * lo) && n * p * hi == n * (p * hi);
    MulCompare(r, lo, sum);
    MulCompare(hi, r, sum);
  }

  lemma SumBounds(values: seq<real>, lo: real, hi: real)
    requires AllPositive(values) && 0.0 < lo <= hi && AllBetween(values, lo, hi)
    ensures |values| as real * Inverse(hi) <= InverseSum(values) <= |values| as real * Inverse(lo)
  {
    hide Inverse, InverseSum;
    forall i | 0 <= i < |values| ensures Inverse(hi) <= Inverse(values[i]) <= Inverse(lo) {
      InverseAntitone(lo, values[i]);
      InverseAntitone(values[i], hi);
    }
    SumBetween(values, Inverse(hi), Inverse(lo));
  }

  /** The overall score lies between the least and the greatest score, and is zero exactly when some
      score is. */
  lemma MeanBetween(values: seq<real>, lo: real, hi: real)
    requires values != [] && AllBetween(values, lo, hi)
    requires forall i | 0 <= i < |values| :: values[i] >= 0.0
    ensures lo <= HarmonicMean(values) <= hi
    ensures HarmonicMean(values) == 0.0 <==> exists i :: 0 <= i < |values| && values[i] == 0.0
  {
    hide Inverse, InverseSum;
    if AllPositive(values) {
      var least := LeastOf(values);
      SumBounds(values, least, hi);
      QuotientBetween(|values| as real, InverseSum(values), Inverse(hi), Inverse(least), least, hi);
    }
  }

  lemma {:induction false} LeastOf(values: seq<real>) returns (least: real)
    requires values != []
    ensures exists i :: 0 <= i < |values| && values[i] == least
    ensures forall i | 0 <= i < |values| :: least <= values[i]
    decreases |values|
  {
    var n := |values| - 1;
    least := values[n];
    if n > 0 {
      var front := LeastOf(values[..n]);
      var i :| 0 <= i < n && values[..n][i] == front;
      assert values[i] == front;
      if front < least { least := front; }
      forall j | 0 <= j < n ensures least <= values[j] { assert values[j] == values[..n][j]; }
    }
  }

  predicate AllOnes(values: seq<real>) {
    forall i | 0 <= i < |values| :: values[i] == 1.0
  }

  lemma {:induction false} InverseSumOfOnes(values: seq<real>)
    requires AllPositive(values) && AllBetween(values, 0.0, 1.0)
    ensures InverseSum(values) >= |values| as real
    ensures InverseSum(values) == |values| as real <==> AllOnes(values)
    decreases |values|
  {
    if values != [] {
      var n := |values| - 1;
      var front := values[..n];
      InverseSumOfOnes(front);
      InverseAntitone(values[n], 1.0);
      assert Inverse(1.0) == 1.0;
      assert AllOnes(values) <==> AllOnes(front) && values[n] == 1.0;
    }
  }

  /** Of scores up to one, the mean is one exactly when they all are. */
  lemma MeanIsOne(values: seq<real>)
    requires values != [] && AllBetween(values, 0.0, 1.0)
    ensures HarmonicMean(values) == 1.0 <==> AllOnes(values)
  {
    hide InverseSum;
    if AllPositive(values) {
      InverseSumOfOnes(values);
      var n, sum := |values| as real, InverseSum(values);
      var mean := HarmonicMean(values);
      assert mean * sum == n;
      MulCompare(mean, 1.0, sum);
    } else {
      assert HarmonicMean(values) == 0.0;
    }
  }

  /** Overall coverage is complete exactly when the log has no missing entry. */
  lemma CompleteIffNothingMissing(judge: Judge, u: Units)
    ensures HarmonicMean(Scores(u)) == 1.0 <==> forall c :: Missing(FullLog(judge, u), c) == 0
  {
    hide FullLog, Missing, HarmonicMean, Covered, Total, Score;
    var s := Scores(u);
    MeanIsOne(s);
    forall c: Category ensures Score(u, c) == 1.0 <==> Missing(FullLog(judge, u), c) == 0 {
      CoverageConserved(judge, u, c);
    }
    assert s[0] == Score(u, SubCallUnit) && s[1] == Score(u, StateTransitionUnit);
    assert s[2] == Score(u, ToolCallUnit) && s[3] == Score(u, AggregationUnit);
    assert AllOnes(s) <==> s[0] == 1.0 && s[1] == 1.0 && s[2] == 1.0 && s[3] == 1.0;
    if AllOnes(s) {
      forall c ensures Missing(FullLog(judge, u), c) == 0 {
        match c
        case SubCallUnit =>
        case StateTransitionUnit =>
        case ToolCallUnit =>
        case AggregationUnit =>
      }
    }
  }

  // ----- Isolation against recursion -----

  /** The share of safe transcripts; none at all scores zero. */
  function ScoreIsolation(judge: Judge, transcripts: seq<Transcript>): real {
    if transcripts == [] then 0.0
    else Count(transcripts, t => IsSafe(judge, t)) as real / |transcripts| as real
  }

  /** The recursive score and the log tell one story: with at least one sub-call, the score is the
      share of sub-calls without an unsafe entry. */
  lemma RecursiveScoreMatchesLog(judge: Judge, u: Units)
    requires u.subCalls != []
    ensures ScoreIsolation(judge, u.subCalls) ==
      (|u.subCalls| - Unsafe(FullLog(judge, u))) as real / |u.subCalls| as real
  {
    hide FullLog, Unsafe, Count;
    CoverageConserved(judge, u, SubCallUnit);
  }

  // ----- What is counted, what is logged, and in which order -----

  lemma {:induction false} FlattenAppend<T>(f: RecursiveTranscript -> seq<T>, a: seq<RecursiveTranscript>,
                                            b: seq<RecursiveTranscript>)
    ensures Flatten(f, a + b) == Flatten(f, a) + Flatten(f, b)
  {
    if a == [] {
      assert a + b == b;
    } else {
      assert (a + b)[1..] == a[1..] + b;
      FlattenAppend(f, a[1..], b);
    }
  }

  lemma FlattenOne<T>(f: RecursiveTranscript -> seq<T>, t: RecursiveTranscript)
    ensures Flatten(f, [t]) == f(t)
  {
    assert [t][1..] == [];
  }

  /** The units are those of each transcript, in order, transcript after transcript. */
  lemma UnitsMean(a: seq<RecursiveTranscript>, t: RecursiveTranscript)
    ensures UnitsOf([]) == Units([], [], [], [])
    ensures UnitsOf(a + [t]) == Units(
      UnitsOf(a).subCalls + t.subCalls,
      UnitsOf(a).stateTransitions + t.stateTransitions,
      UnitsOf(a).toolCalls + t.toolCalls,
      UnitsOf(a).aggregationSteps + t.aggregationSteps)
  {
    hide Flatten;
    var f := (t: RecursiveTranscript) => t.subCalls;
    var g := (t: RecursiveTranscript) => t.stateTransitions;
    var h := (t: RecursiveTranscript) => t.toolCalls;
    var k := (t: RecursiveTranscript) => t.aggregationSteps;
    FlattenAppend(f, a, [t]);
    FlattenOne(f, t);
    FlattenAppend(g, a, [t]);
    FlattenOne(g, t);
    FlattenAppend(h, a, [t]);
    FlattenOne(h, t);
    FlattenAppend(k, a, [t]);
    FlattenOne(k, t);
    NoUnits();
  }

  lemma NoUnits()
    ensures UnitsOf([]) == Units([], [], [], [])
  {
  }

  /** Counting counts positions. */
  lemma {:induction false} CountIs<T>(items: seq<T>, holds: T -> bool, positions: set<int>)
    requires forall i :: i in positions <==> 0 <= i < |items| && holds(items[i])
    ensures Count(items, holds) == |positions|
    decreases |items|
  {
    if items == [] {
      assert forall i :: i in positions ==> 0 <= i < |items|;
      assert positions == {};
    } else {
      var n := |items| - 1;
      var front := positions - {n};
      CountIs(items[..n], holds, front);
      assert holds(items[n]) ==> positions == front + {n};
      assert !holds(items[n]) ==> positions == front;
    }
  }

  /** Covered units are those with a GCO, or for an aggregation with a GCO for every input. */
  lemma CoveredMeans(u: Units)
    ensures Covered(u, SubCallUnit) == |set i | 0 <= i < |u.subCalls| && u.subCalls[i].gco.Some?|
    ensures Covered(u, StateTransitionUnit) ==
      |set i | 0 <= i < |u.stateTransitions| && u.stateTransitions[i].gco.Some?|
    ensures Covered(u, ToolCallUnit) == |set i | 0 <= i < |u.toolCalls| && u.toolCalls[i].gco.Some?|
    ensures Covered(u, AggregationUnit) ==
      |set i | 0 <= i < |u.aggregationSteps| && None !in u.aggregationSteps[i].inputGcos|
  {
    hide Count;
    CountIs(u.subCalls, SubCallCovered, set i | 0 <= i < |u.subCalls| && u.subCalls[i].gco.Some?);
    CountIs(u.stateTransitions, TransitionCovered,
            set i | 0 <= i < |u.stateTransitions| && u.stateTransitions[i].gco.Some?);
    CountIs(u.toolCalls, ToolCallCovered, set i | 0 <= i < |u.toolCalls| && u.toolCalls[i].gco.Some?);
    forall s: AggregationStep ensures StepCovered(s) <==> None !in s.inputGcos { StepCoveredMeans(s); }
    CountIs(u.aggregationSteps, StepCovered,
            set i | 0 <= i < |u.aggregationSteps| && None !in u.aggregationSteps[i].inputGcos);
  }

  lemma StepCoveredMeans(s: AggregationStep)
    ensures StepCovered(s) <==> None !in s.inputGcos
  {
    if !StepCovered(s) {
      var g :| g in s.inputGcos && !HasGco(g);
      assert g == None;
    }
  }

  /** A score is the share of its category that is covered, and complete when there is nothing to cover; the
      overall score is the harmonic mean of the four: it times the sum of their inverses is four. */
  lemma ScoresMean(u: Units, c: Category)
    ensures Total(u, c) == 0 ==> Score(u, c) == 1.0
    ensures Score(u, c) * Total(u, c) as real == Covered(u, c) as real
    ensures var s := Scores(u);
      s[0] > 0.0 && s[1] > 0.0 && s[2] > 0.0 && s[3] > 0.0 ==>
        HarmonicMean(s) * (1.0 / s[0] + 1.0 / s[1] + 1.0 / s[2] + 1.0 / s[3]) == 4.0
  {
    hide Covered, Total, Fraction, HarmonicMean, Scores;
    ShareTimesTotal(Covered(u, c), Total(u, c));
    var s := Scores(u);
    if s[0] > 0.0 && s[1] > 0.0 && s[2] > 0.0 && s[3] > 0.0 {
      MeanOfFour(s);
    }
  }

  lemma MeanOfFour(s: seq<real>)
    requires |s| == 4 && AllPositive(s)
    ensures HarmonicMean(s) * (1.0 / s[0] + 1.0 / s[1] + 1.0 / s[2] + 1.0 / s[3]) == 4.0
  {
    hide HarmonicMean, InverseSum;
    SumOfFour(s);
    MeanTimesSum(s);
  }

  /** The isolation score is the share of safe transcripts, and zero when there are none. */
  lemma IsolationMeans(judge: Judge, transcripts: seq<Transcript>)
    ensures ScoreIsolation(judge, []) == 0.0
    ensures ScoreIsolation(judge, transcripts) * |transcripts| as real ==
      |set i | 0 <= i < |transcripts| && SafeBy(judge, transcripts[i])| as real
  {
    hide Count;
    CountIs(transcripts, t => IsSafe(judge, t), set i | 0 <= i < |transcripts| && SafeBy(judge, transcripts[i]));
  }

  /** Labelled safe, or without a label judged so. */
  predicate SafeBy(judge: Judge, t: Transcript) {
    t.judgeLabel == Some(true) || (t.judgeLabel.None? && judge(t.prompt, t.response))
  }

  lemma ShareTimesTotal(count: nat, total: nat)
    requires count <= total
    ensures Fraction(count, total) * total as real == count as real
    ensures total == 0 ==> Fraction(count, total) == 1.0
  {
  }

  lemma MeanTimesSum(values: seq<real>)
    requires values != [] && AllPositive(values)
    ensures HarmonicMean(values) * InverseSum(values) == |values| as real
  {
    hide InverseSum;
  }

  lemma SumOfFour(s: seq<real>)
    requires |s| == 4 && AllPositive(s)
    ensures InverseSum(s) == 1.0 / s[0] + 1.0 / s[1] + 1.0 / s[2] + 1.0 / s[3]
  {
    assert s[..3][..2] == s[..2] && s[..2][..1] == s[..1] && s[..1][..0] == [];
    assert InverseSum(s[..1]) == 1.0 / s[0];
    assert InverseSum(s[..2]) == InverseSum(s[..1]) + 1.0 / s[1];
    assert InverseSum(s[..3]) == InverseSum(s[..2]) + 1.0 / s[2];
  }

  /** The entry that the log owes a unit: a sub-call without a GCO, or unsafe by its label and without one by
      the judge; a transition or tool call without a GCO; an aggregation with an input that has none. */
  predicate Due(judge: Judge, u: Units, e: Rejection) {
    match e.category
    case SubCallUnit =>
      && e.index < |u.subCalls|
      && var t := u.subCalls[e.index];
      || (e.reason == MissingGco && t.gco.None?)
      || (e.reason == UnsafeResponse
          && (t.judgeLabel == Some(false) || (t.judgeLabel.None? && !judge(t.prompt, t.response))))
    case StateTransitionUnit =>
      e.index < |u.stateTransitions| && e.reason == MissingGco && u.stateTransitions[e.index].gco.None?
    case ToolCallUnit => e.index < |u.toolCalls| && e.reason == MissingGco && u.toolCalls[e.index].gco.None?
    case AggregationUnit =>
      && e.index < |u.aggregationSteps| && e.reason == MissingInputGco
      && None in u.aggregationSteps[e.index].inputGcos
  }

  function Place(c: Category): nat {
    match c
    case SubCallUnit => 0
    case StateTransitionUnit => 1
    case ToolCallUnit => 2
    case AggregationUnit => 3
  }

  /** By category, then by index, what is missing before what is unsafe. */
  predicate LoggedBefore(a: Rejection, b: Rejection) {
    || Place(a.category) < Place(b.category)
    || (a.category == b.category
        && (a.index < b.index || (a.index == b.index && a.reason != UnsafeResponse && b.reason == UnsafeResponse)))
  }

  predicate InLogOrder(log: seq<Rejection>) {
    forall i, j | 0 <= i < j < |log| :: LoggedBefore(log[i], log[j])
  }

  predicate OwedTo<T>(items: seq<T>, c: Category, missing: Reason, covered: T -> bool, safe: T -> bool, e: Rejection) {
    && e.category == c && e.index < |items|
    && ((e.reason == missing && !covered(items[e.index])) || (e.reason == UnsafeResponse && !safe(items[e.index])))
  }

  lemma {:induction false} LogOfMeans<T>(items: seq<T>, c: Category, missing: Reason, covered: T -> bool,
                                         safe: T -> bool)
    requires missing != UnsafeResponse
    ensures var log := LogOf(items, c, missing, covered, safe);
      && InLogOrder(log)
      && forall e :: e in log <==> OwedTo(items, c, missing, covered, safe, e)
    decreases |items|
  {
    if items != [] {
      var n := |items| - 1;
      var front := LogOf(items[..n], c, missing, covered, safe);
      var last := Entries(c, n, covered(items[n]), missing, safe(items[n]));
      LogOfMeans(items[..n], c, missing, covered, safe);
      EntriesMean(c, n, covered(items[n]), missing, safe(items[n]));
      forall e ensures e in front + last <==> OwedTo(items, c, missing, covered, safe, e) {
        assert e.index < n ==> items[..n][e.index] == items[e.index];
      }
      forall i | 0 <= i < |front| ensures front[i].category == c && front[i].index < n {
        assert front[i] in front;
      }
      LogAppend(front, last);
    }
  }

  lemma EntriesMean(c: Category, index: nat, covered: bool, missing: Reason, safe: bool)
    requires missing != UnsafeResponse
    ensures var log := Entries(c, index, covered, missing, safe);
      && InLogOrder(log)
      && (forall e :: e in log <==>
            && e.category == c && e.index == index
            && ((e.reason == missing && !covered) || (e.reason == UnsafeResponse && !safe)))
      && (forall i | 0 <= i < |log| :: log[i].category == c && log[i].index == index)
  {
  }

  lemma LogAppend(a: seq<Rejection>, b: seq<Rejection>)
    requires InLogOrder(a) && InLogOrder(b)
    requires forall i, j | 0 <= i < |a| && 0 <= j < |b| :: LoggedBefore(a[i], b[j])
    ensures InLogOrder(a + b)
  {
    hide LoggedBefore;
  }

  lemma AppendByPlace(a: seq<Rejection>, b: seq<Rejection>, k: nat)
    requires InLogOrder(a) && InLogOrder(b)
    requires forall e | e in a :: Place(e.category) < k
    requires forall e | e in b :: Place(e.category) == k
    ensures InLogOrder(a + b) && forall e | e in a + b :: Place(e.category) < k + 1
  {
    hide Place;
    forall i, j | 0 <= i < |a| && 0 <= j < |b| ensures LoggedBefore(a[i], b[j]) {
      assert a[i] in a && b[j] in b;
    }
    LogAppend(a, b);
  }

  /** The log holds exactly the entries that are due, each once, in order. */
  lemma LogMeans(judge: Judge, u: Units)
    ensures InLogOrder(FullLog(judge, u))
    ensures forall e :: e in FullLog(judge, u) <==> Due(judge, u, e)
  {
    hide LogOf, InLogOrder;
    var safe := t => IsSafe(judge, t);
    var a := LogOf(u.subCalls, SubCallUnit, MissingGco, SubCallCovered, safe);
    var b := LogOf(u.stateTransitions, StateTransitionUnit, MissingGco, TransitionCovered, Always);
    var c := LogOf(u.toolCalls, ToolCallUnit, MissingGco, ToolCallCovered, Always);
    var d := LogOf(u.aggregationSteps, AggregationUnit, MissingInputGco, StepCovered, Always);
    LogOfMeans(u.subCalls, SubCallUnit, MissingGco, SubCallCovered, safe);
    LogOfMeans(u.stateTransitions, StateTransitionUnit, MissingGco, TransitionCovered, Always);
    LogOfMeans(u.toolCalls, ToolCallUnit, MissingGco, ToolCallCovered, Always);
    LogOfMeans(u.aggregationSteps, AggregationUnit, MissingInputGco, StepCovered, Always);
    AppendByPlace(a, b, 1);
    AppendByPlace(a + b, c, 2);
    AppendByPlace(a + b + c, d, 3);
    forall e ensures e in FullLog(judge, u) <==> Due(judge, u, e) {
      if e.category.AggregationUnit? && e.index < |u.aggregationSteps| {
        StepCoveredMeans(u.aggregationSteps[e.index]);
      }
      assert e in FullLog(judge, u) <==> e in a || e in b || e in c || e in d;
    }
  }
}
