/** The token estimate of a text from its runs of Japanese, Latin and numeric characters
    (compression/token_estimator.rs). */
module TokenEstimator {
  import opened Numbers
  import opened Sequences
  import opened Text

  datatype Kind = Japanese | Latin | Number | Space | Symbol

  function KindOf(c: char): Kind {
    if '\U{3040}' <= c <= '\U{30FF}' || '\U{3400}' <= c <= '\U{9FFF}' then Japanese
    else if IsAsciiAlphabetic(c) || c == '_' then Latin
    else if IsDigit(c) then Number
    else if IsWhitespace(c) then Space
    else Symbol
  }

  predicate FormsRuns(k: Kind) { k == Japanese || k == Latin || k == Number }

  function CeilDiv(a: nat, b: nat): nat
    requires b > 0
  {
    (a + b - 1) / b
  }

  /** The estimate for one run of `n` characters of one kind. */
  function Cost(k: Kind, n: nat): nat {
    match k
    case Japanese => CeilDiv(n * 2, 3)
    case Latin => CeilDiv(n, 4)
    case Number => CeilDiv(n, 3)
    case Space => 0
    case Symbol => n
  }

  function RunLength(k: Kind, s: string): (n: nat)
    ensures n <= |s|
    ensures forall i :: 0 <= i < n ==> KindOf(s[i]) == k
    ensures n < |s| ==> KindOf(s[n]) != k
  {
    if s != [] && KindOf(s[0]) == k then 1 + RunLength(k, s[1..]) else 0
  }

  /** The specification: maximal runs at their ceilings, symbols one each, white space nothing. */
  function Total(s: string): nat
    decreases |s|
  {
    if s == [] then 0
    else
      var k := KindOf(s[0]);
      if FormsRuns(k) then Cost(k, RunLength(k, s)) + Total(s[RunLength(k, s)..])
      else Cost(k, 1) + Total(s[1..])
  }

  // ---------- The loop ----------

  /** The estimate of what is still to come when `n` characters of kind `k` are pending. */
  function TotalAfter(k: Kind, n: nat, s: string): nat {
    if FormsRuns(k) then Cost(k, n + RunLength(k, s)) + Total(s[RunLength(k, s)..]) else Total(s)
  }

  /** What a pending run adds when it ends. */
  function Pending(k: Kind, n: nat): nat { if FormsRuns(k) then Cost(k, n) else 0 }

  lemma TotalAfterSame(k: Kind, n: nat, s: string)
    requires s != [] && FormsRuns(k) && KindOf(s[0]) == k
    ensures TotalAfter(k, n, s) == TotalAfter(k, n + 1, s[1..])
  {
    hide Cost;
    assert s[1..][RunLength(k, s[1..])..] == s[RunLength(k, s)..];
  }

  lemma TotalAfterOther(k: Kind, n: nat, s: string)
    requires s != [] && !(FormsRuns(k) && KindOf(s[0]) == k)
    ensures TotalAfter(k, n, s) == Pending(k, n) + Total(s)
  {
    hide Cost;
  }

  lemma TotalStarts(s: string)
    requires s != []
    ensures var k := KindOf(s[0]);
      Total(s) == if FormsRuns(k) then TotalAfter(k, 0, s) else Cost(k, 1) + Total(s[1..])
  {
    hide Cost;
  }

  /** The run the counters hold; a counter that is not of the active kind is zero. */
  ghost predicate Holds(active: Option<Kind>, japanese: nat, latin: nat, number: nat, k: Kind, n: nat) {
    && japanese == (if k == Japanese then n else 0)
    && latin == (if k == Latin then n else 0)
    && number == (if k == Number then n else 0)
    && (FormsRuns(k) <==> n > 0)
    && (if FormsRuns(k) then active == Some(k) else active == None)
  }

  /** Adds the pending run to the estimate. */
  method FlushRuns(estimate: nat, japanese: nat, latin: nat, number: nat,
                   ghost active: Option<Kind>, ghost k: Kind, ghost n: nat) returns (flushed: nat)
    requires Holds(active, japanese, latin, number, k, n)
    ensures flushed == estimate + Pending(k, n)
  {
    flushed := estimate;
    if japanese > 0 { flushed := flushed + CeilDiv(japanese * 2, 3); }
    if latin > 0 { flushed := flushed + CeilDiv(latin, 4); }
    if number > 0 { flushed := flushed + CeilDiv(number, 3); }
  }

  method Estimate(input: string) returns (result: nat)
    ensures result == Total(input)
  {
    var trimmed := Trim(input);
    TotalOfTrimmed(input);
    ZeroMeansBlank(trimmed);
    TrimmedIsBlank(input);
    hide TotalAfter, Total, Pending, Cost, KindOf, Blank, Trim;
    if trimmed == [] {
      return 0;
    }
    var estimate: nat := 0;
    var japaneseCharacters: nat, latinCharacters: nat, numberCharacters: nat := 0, 0, 0;
    var activeRun: Option<Kind> := None;
    ghost var k, n := Space, 0;
    NothingPending(trimmed);
    assert trimmed[0..] == trimmed;
    for i := 0 to |trimmed|
      invariant Holds(activeRun, japaneseCharacters, latinCharacters, numberCharacters, k, n)
      invariant Total(trimmed) == estimate + TotalAfter(k, n, trimmed[i..])
    {
      var runKind := KindOf(trimmed[i]);
      var rest := trimmed[i..];
      assert rest[0] == trimmed[i] && rest[1..] == trimmed[i + 1..];
      TotalStarts(rest);
      if !FormsRuns(runKind) {
        TotalAfterOther(k, n, rest);
        estimate := FlushRuns(estimate, japaneseCharacters, latinCharacters, numberCharacters, activeRun, k, n);
        japaneseCharacters, latinCharacters, numberCharacters, activeRun := 0, 0, 0, None;
        CostOfOther(runKind);
        if runKind != Space {
          estimate := estimate + 1;
        }
        k, n := Space, 0;
        NothingPending(trimmed[i + 1..]);
        continue;
      }
      if activeRun != Some(runKind) {
        TotalAfterOther(k, n, rest);
        estimate := FlushRuns(estimate, japaneseCharacters, latinCharacters, numberCharacters, activeRun, k, n);
        japaneseCharacters, latinCharacters, numberCharacters := 0, 0, 0;
        k, n := runKind, 0;
      }
      TotalAfterSame(k, n, rest);
      match runKind {
        case Japanese => japaneseCharacters := japaneseCharacters + 1;
        case Latin => latinCharacters := latinCharacters + 1;
        case _ => numberCharacters := numberCharacters + 1;
      }
      n := n + 1;
      activeRun := Some(runKind);
    }
    estimate := FlushRuns(estimate, japaneseCharacters, latinCharacters, numberCharacters, activeRun, k, n);
    assert trimmed[|trimmed|..] == [];
    TotalAtEnd(k, n);
    result := Max(estimate, 1);
  }

  lemma CostOfOther(k: Kind)
    requires !FormsRuns(k)
    ensures Cost(k, 1) == if k == Space then 0 else 1
  {
  }

  lemma TotalAtEnd(k: Kind, n: nat)
    ensures TotalAfter(k, n, []) == Pending(k, n)
  {
    hide Cost;
  }

  lemma NothingPending(s: string)
    ensures TotalAfter(Space, 0, s) == Total(s)
  {
  }

  lemma TrimmedIsBlank(s: string)
    ensures Blank(Trim(s)) <==> Trim(s) == []
  {
    TrimIdempotent(s);
    TrimIsBlank(IsWhitespace, Trim(s));
  }

  // ---------- Laws ----------

  /** How many characters are not white space. */
  function VisibleCount(s: string): nat {
    if s == [] then 0 else (if IsWhitespace(s[0]) then 0 else 1) + VisibleCount(s[1..])
  }

  lemma CostBounds(k: Kind, n: nat)
    ensures n > 0 && k != Space ==> 1 <= Cost(k, n) <= n
  {
  }

  lemma {:induction false} VisibleRun(k: Kind, s: string)
    requires FormsRuns(k)
    ensures VisibleCount(s) == RunLength(k, s) + VisibleCount(s[RunLength(k, s)..])
  {
    if s != [] && KindOf(s[0]) == k {
      VisibleRun(k, s[1..]);
      assert s[1..][RunLength(k, s[1..])..] == s[RunLength(k, s)..];
      VisibleKind(s[0]);
    }
  }

  lemma VisibleKind(c: char)
    ensures IsWhitespace(c) <==> KindOf(c) == Space
  {
  }

  /** The estimate never exceeds the number of visible characters, and it is zero exactly when there
      are none. */
  lemma {:induction false} TotalBounds(s: string)
    ensures Total(s) <= VisibleCount(s)
    ensures Total(s) == 0 <==> VisibleCount(s) == 0
    decreases |s|
  {
    hide Cost;
    if s != [] {
      var k := KindOf(s[0]);
      VisibleKind(s[0]);
      if FormsRuns(k) {
        VisibleRun(k, s);
        CostBounds(k, RunLength(k, s));
        TotalBounds(s[RunLength(k, s)..]);
      } else {
        CostOfOther(k);
        TotalBounds(s[1..]);
      }
    }
  }

  lemma {:induction false} NonBlankCounts(s: string)
    ensures VisibleCount(s) == 0 <==> Blank(s)
  {
    if s != [] {
      NonBlankCounts(s[1..]);
      assert forall i :: 0 < i < |s| ==> s[i] == s[1..][i - 1];
    }
  }

  /** Zero exactly on blank text. */
  lemma ZeroMeansBlank(s: string)
    ensures Total(s) == 0 <==> Blank(s)
  {
    TotalBounds(s);
    NonBlankCounts(s);
  }

  /** Merging two runs of one kind saves at most one token and never costs one. */
  lemma CostMerges(k: Kind, n: nat, m: nat)
    requires FormsRuns(k)
    ensures Cost(k, n) + Cost(k, m) <= Cost(k, n + m) + 1
    ensures Cost(k, n + m) <= Cost(k, n) + Cost(k, m)
  {
  }

  lemma {:induction false} RunOfConcat(k: Kind, a: string, b: string)
    ensures RunLength(k, a + b) ==
      if RunLength(k, a) == |a| then |a| + RunLength(k, b) else RunLength(k, a)
  {
    if a == [] {
      assert a + b == b;
    } else {
      assert (a + b)[1..] == a[1..] + b;
      RunOfConcat(k, a[1..], b);
    }
  }

  /** Estimating two texts apart costs at most one token more than together, and never less. */
  lemma {:induction false} TotalOfConcat(a: string, b: string)
    ensures Total(a) + Total(b) <= Total(a + b) + 1
    ensures Total(a + b) <= Total(a) + Total(b)
    decreases |a|
  {
    if a == [] {
      assert a + b == b;
    } else {
      hide Cost, RunLength, Total;
      var k := KindOf(a[0]);
      if !FormsRuns(k) {
        TotalOfConcat(a[1..], b);
        SplitConcat(a, 1, b);
        TotalOfSingle(a);
        TotalOfSingle(a + b);
      } else if RunLength(k, a) < |a| {
        var n := RunLength(k, a);
        RunOfConcat(k, a, b);
        SplitConcat(a, n, b);
        TotalOfConcat(a[n..], b);
        RunFrom(k, a, n, a[n..]);
        RunFrom(k, a + b, n, a[n..] + b);
      } else {
        WholeRunConcat(k, a, b);
      }
    }
  }

  lemma TotalOfSingle(s: string)
    requires s != [] && !FormsRuns(KindOf(s[0]))
    ensures Total(s) == Cost(KindOf(s[0]), 1) + Total(s[1..])
  {
  }

  lemma TotalOfRun(k: Kind, s: string)
    requires s != [] && FormsRuns(k) && KindOf(s[0]) == k
    ensures Total(s) == Cost(k, RunLength(k, s)) + Total(s[RunLength(k, s)..])
  {
    hide Cost;
  }

  lemma WholeRunConcat(k: Kind, a: string, b: string)
    requires a != [] && FormsRuns(k) && KindOf(a[0]) == k && RunLength(k, a) == |a|
    ensures Total(a) + Total(b) <= Total(a + b) + 1
    ensures Total(a + b) <= Total(a) + Total(b)
  {
    hide Cost, RunLength, Total;
    var m := RunLength(k, b);
    WholeRun(k, a);
    RunAhead(k, a, b);
    LeadingCost(k, b);
    CostMerges(k, |a|, m);
  }

  lemma WholeRun(k: Kind, s: string)
    requires s != [] && FormsRuns(k) && KindOf(s[0]) == k && RunLength(k, s) == |s|
    ensures Total(s) == Cost(k, |s|)
  {
    TotalOfRun(k, s);
    assert s[|s|..] == [];
  }

  lemma RunAhead(k: Kind, a: string, b: string)
    requires a != [] && FormsRuns(k) && KindOf(a[0]) == k && RunLength(k, a) == |a|
    ensures Total(a + b) == Cost(k, |a| + RunLength(k, b)) + Total(b[RunLength(k, b)..])
  {
    hide Cost, Total, RunLength;
    RunOfConcat(k, a, b);
    RunFrom(k, a + b, |a| + RunLength(k, b), b[RunLength(k, b)..]) by {
      DropConcat(a, b, RunLength(k, b));
    }
  }

  lemma RunFrom(k: Kind, s: string, n: nat, rest: string)
    requires s != [] && FormsRuns(k) && KindOf(s[0]) == k
    requires n == RunLength(k, s) && rest == s[n..]
    ensures Total(s) == Cost(k, n) + Total(rest)
  {
    TotalOfRun(k, s);
  }

  /** A run of length zero costs nothing, so the equation of `TotalOfRun` holds for any text. */
  lemma LeadingCost(k: Kind, s: string)
    requires FormsRuns(k)
    ensures Total(s) == Cost(k, RunLength(k, s)) + Total(s[RunLength(k, s)..])
  {
    if s != [] && KindOf(s[0]) == k {
      TotalOfRun(k, s);
    } else {
      hide Total;
      assert s[0..] == s;
    }
  }

  lemma {:induction false} BlankPrefix(a: string, b: string)
    requires Blank(a)
    ensures Total(a + b) == Total(b)
  {
    if a == [] {
      assert a + b == b;
    } else {
      VisibleKind(a[0]);
      CostOfOther(KindOf(a[0]));
      assert (a + b)[1..] == a[1..] + b;
      BlankPrefix(a[1..], b);
    }
  }

  lemma {:induction false} BlankSuffix(a: string, b: string)
    requires Blank(b)
    ensures Total(a + b) == Total(a)
    decreases |a|
  {
    if a == [] {
      assert a + b == b;
      ZeroMeansBlank(b);
    } else {
      var k := KindOf(a[0]);
      if FormsRuns(k) {
        var n := RunLength(k, a);
        RunOfConcat(k, a, b);
        NoRunInBlank(k, b);
        SplitConcat(a, n, b);
        BlankSuffix(a[n..], b);
      } else {
        assert (a + b)[1..] == a[1..] + b;
        BlankSuffix(a[1..], b);
      }
    }
  }

  lemma NoRunInBlank(k: Kind, s: string)
    requires Blank(s) && k != Space
    ensures RunLength(k, s) == 0
  {
    if s != [] {
      VisibleKind(s[0]);
    }
  }

  /** White space around the text does not count. */
  lemma TotalOfTrimmed(s: string)
    ensures Total(Trim(s)) == Total(s)
  {
    TrimBySplits(IsWhitespace, s);
    var i, j := TrimStartIndex(IsWhitespace, s), TrimEndIndex(IsWhitespace, s);
    BlankPrefix(s[..i], s[i..]);
    TakeDrop(s, i);
    BlankSuffix(s[i..j], s[j..]);
    SliceJoin(s, i, j, |s|);
    assert s[i..|s|] == s[i..] && s[j..|s|] == s[j..];
  }

  // ---------- The weights, written out ----------

  predicate IsKana(c: char) { 0x3040 <= c as int <= 0x30FF || 0x3400 <= c as int <= 0x9FFF }

  predicate IsLetter(c: char) { 65 <= c as int <= 90 || 97 <= c as int <= 122 || c as int == 95 }

  predicate IsFigure(c: char) { 48 <= c as int <= 57 }

  /** `t` is the least number of tokens of which each holds `per / characters` characters. */
  predicate IsCeiling(t: nat, characters: nat, per: nat) { characters <= t * per < characters + per }

  predicate InOneRun(c: char, d: char) {
    (IsKana(c) && IsKana(d)) || (IsLetter(c) && IsLetter(d)) || (IsFigure(c) && IsFigure(d))
  }

  lemma KindIs(c: char)
    ensures IsKana(c) <==> KindOf(c) == Japanese
    ensures IsLetter(c) <==> KindOf(c) == Latin
    ensures IsFigure(c) <==> KindOf(c) == Number
  {
  }

  lemma {:induction false} RunOfAll(k: Kind, s: string)
    requires forall i :: 0 <= i < |s| ==> KindOf(s[i]) == k
    ensures RunLength(k, s) == |s|
  {
    hide KindOf;
    if s != [] {
      RunOfAll(k, s[1..]);
    }
  }

  lemma OneRun(k: Kind, s: string)
    requires s != [] && FormsRuns(k) && forall i :: 0 <= i < |s| ==> KindOf(s[i]) == k
    ensures Total(s) == Cost(k, |s|)
  {
    hide Total, Cost, KindOf;
    RunOfAll(k, s);
    WholeRun(k, s);
  }

  /** Two tokens for three Japanese characters, one for four letters, one for three digits, rounded up. */
  lemma RunWeights(s: string)
    requires s != []
    ensures (forall i :: 0 <= i < |s| ==> IsKana(s[i])) ==> IsCeiling(Total(s), 2 * |s|, 3)
    ensures (forall i :: 0 <= i < |s| ==> IsLetter(s[i])) ==> IsCeiling(Total(s), |s|, 4)
    ensures (forall i :: 0 <= i < |s| ==> IsFigure(s[i])) ==> IsCeiling(Total(s), |s|, 3)
  {
    forall i | 0 <= i < |s|
      ensures IsKana(s[i]) <==> KindOf(s[i]) == Japanese
      ensures IsLetter(s[i]) <==> KindOf(s[i]) == Latin
      ensures IsFigure(s[i]) <==> KindOf(s[i]) == Number
    {
      KindIs(s[i]);
    }
    hide Total, KindOf, IsKana, IsLetter, IsFigure;
    if forall i :: 0 <= i < |s| ==> IsKana(s[i]) {
      OneRun(Japanese, s);
    }
    if forall i :: 0 <= i < |s| ==> IsLetter(s[i]) {
      OneRun(Latin, s);
    }
    if forall i :: 0 <= i < |s| ==> IsFigure(s[i]) {
      OneRun(Number, s);
    }
  }

  /** Any other character is one token, white space none. */
  lemma OtherWeights(c: char)
    requires !IsKana(c) && !IsLetter(c) && !IsFigure(c)
    ensures Total([c]) == if IsWhitespace(c) then 0 else 1
  {
    KindIs(c);
    assert [c][1..] == [];
  }

  /** Between two runs, and around any other character, the estimates add up. */
  lemma {:induction false} RunsAddUp(a: string, b: string)
    requires a != [] && b != [] && !InOneRun(a[|a| - 1], b[0])
    ensures Total(a + b) == Total(a) + Total(b)
    decreases |a|
  {
    hide Cost, RunLength, Total, KindOf, IsKana, IsLetter, IsFigure;
    var k := KindOf(a[0]);
    if !FormsRuns(k) {
      SplitConcat(a, 1, b);
      TotalOfSingle(a);
      TotalOfSingle(a + b);
      if |a| > 1 {
        RunsAddUp(a[1..], b);
      } else {
        NothingTotal();
        assert a[1..] == [] && [] + b == b;
      }
    } else {
      var n := RunLength(k, a);
      RunOfConcat(k, a, b);
      SplitConcat(a, n, b);
      RunFrom(k, a, n, a[n..]);
      if n < |a| {
        RunsAddUp(a[n..], b);
      } else {
        OtherRun(k, a[|a| - 1], b);
        NothingTotal();
        assert a[n..] == [] && [] + b == b;
      }
      RunFrom(k, a + b, n, a[n..] + b);
    }
  }

  lemma NothingTotal()
    ensures Total([]) == 0
  {
  }

  lemma OtherRun(k: Kind, last: char, b: string)
    requires FormsRuns(k) && KindOf(last) == k && b != [] && !InOneRun(last, b[0])
    ensures RunLength(k, b) == 0
  {
    KindIs(last);
    KindIs(b[0]);
  }
}
