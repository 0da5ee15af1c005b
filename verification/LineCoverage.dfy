/** Classification of source lines from the covered and uncovered regions of a file. */
module LineCoverage {

  /** A line number; the loops of the classification count up in 32 bits, and must not reach the last value. */
  type Line = n: int | 0 <= n < 0xFFFF_FFFF

  datatype Range = Range(start: Line, end: Line)

  predicate IsBorder(r: Range, i: int) { i == r.start || i == r.end }

  predicate Holds(r: Range, i: int) { r.start <= i <= r.end }

  predicate Inside(r: Range, i: int) { r.start < i < r.end }

  /** A border of one of the first `n` ranges. */
  predicate OnBorder(rs: seq<Range>, n: int, i: int) { exists k :: 0 <= k < n && k < |rs| && IsBorder(rs[k], i) }

  predicate InLines(rs: seq<Range>, n: int, i: int) { exists k :: 0 <= k < n && k < |rs| && Holds(rs[k], i) }

  predicate InInterior(rs: seq<Range>, n: int, i: int) { exists k :: 0 <= k < n && k < |rs| && Inside(rs[k], i) }

  /** A line is partial if an uncovered and a covered range begin or end on it. */
  predicate IsPartial(uncovered: seq<Range>, covered: seq<Range>, n: int, i: int)
  {
    OnBorder(uncovered, |uncovered|, i) && OnBorder(covered, n, i)
  }

  /**
   A line is full if a covered range begins or ends on it and no uncovered one does, or if it is inside a covered range
   and, by the time that range is reached, not uncovered: never, or no more because it was found partial.
   */
  ghost predicate IsFull(uncovered: seq<Range>, covered: seq<Range>, n: int, i: int)
  {
    || (OnBorder(covered, n, i) && !OnBorder(uncovered, |uncovered|, i))
    || exists k :: 0 <= k < n && k < |covered| && FullInside(uncovered, covered, k, i)
  }

  predicate FullInside(uncovered: seq<Range>, covered: seq<Range>, k: int, i: int)
    requires 0 <= k < |covered|
  {
    Inside(covered[k], i) && (!InLines(uncovered, |uncovered|, i) || IsPartial(uncovered, covered, k + 1, i))
  }

  class FileCoverage {
    var uncoveredRanges: seq<Range>
    var coveredRanges: seq<Range>
    var fullCoverageLines: set<int>
    var partialCoverageLines: set<int>
    var noCoverageLines: set<int>
    var noCoverageLinesBorders: set<int>

    constructor (uncoveredRanges: seq<Range>, coveredRanges: seq<Range>)
      ensures this.uncoveredRanges == uncoveredRanges && this.coveredRanges == coveredRanges && Unclassified()
    {
      this.uncoveredRanges, this.coveredRanges := uncoveredRanges, coveredRanges;
      fullCoverageLines, partialCoverageLines, noCoverageLines, noCoverageLinesBorders := {}, {}, {}, {};
    }

    predicate Unclassified()
      reads this
    {
      fullCoverageLines == partialCoverageLines == noCoverageLines == noCoverageLinesBorders == {}
    }

    /** What the sets hold when all uncovered and the first `n` covered ranges are done. */
    ghost predicate Classified(n: int)
      reads this
    {
      && (forall i :: i in noCoverageLinesBorders <==> OnBorder(uncoveredRanges, |uncoveredRanges|, i))
      && (forall i :: i in partialCoverageLines <==> IsPartial(uncoveredRanges, coveredRanges, n, i))
      && (forall i :: i in noCoverageLines <==>
            InLines(uncoveredRanges, |uncoveredRanges|, i) && !IsPartial(uncoveredRanges, coveredRanges, n, i))
      && (forall i :: i in fullCoverageLines <==> IsFull(uncoveredRanges, coveredRanges, n, i))
    }

    method CheckLineForPartial(line: Line)
      modifies this`partialCoverageLines, this`noCoverageLines, this`fullCoverageLines
      ensures if line in noCoverageLinesBorders
              then && partialCoverageLines == old(partialCoverageLines) + {line}
                   && noCoverageLines == old(noCoverageLines) - {line}
                   && fullCoverageLines == old(fullCoverageLines)
              else && partialCoverageLines == old(partialCoverageLines) && noCoverageLines == old(noCoverageLines)
                   && fullCoverageLines == old(fullCoverageLines) + {line}
    {
      if line in noCoverageLinesBorders {
        partialCoverageLines := partialCoverageLines + {line};
        noCoverageLines := noCoverageLines - {line};
      } else {
        fullCoverageLines := fullCoverageLines + {line};
      }
    }

    method CountLineCoverage()
      requires Unclassified()
      modifies this
      ensures uncoveredRanges == old(uncoveredRanges) && coveredRanges == old(coveredRanges)
      ensures Classified(|coveredRanges|)
    {
      CountUncovered();
      for k := 0 to |coveredRanges|
        invariant uncoveredRanges == old(uncoveredRanges) && coveredRanges == old(coveredRanges) && Classified(k)
      {
        CountCovered(k);
      }
    }

    method CountUncovered()
      requires Unclassified()
      modifies this`noCoverageLines, this`noCoverageLinesBorders
      ensures Classified(0)
    {
      for k := 0 to |uncoveredRanges|
        invariant forall i :: i in noCoverageLinesBorders <==> OnBorder(uncoveredRanges, k, i)
        invariant forall i :: i in noCoverageLines <==> InLines(uncoveredRanges, k, i)
      {
        OneMore(uncoveredRanges, k);
        var range := uncoveredRanges[k];
        noCoverageLinesBorders := noCoverageLinesBorders + {range.start};
        noCoverageLinesBorders := noCoverageLinesBorders + {range.end};
        AddLines(range);
      }
    }

    method AddLines(range: Range)
      modifies this`noCoverageLines
      ensures forall j :: j in noCoverageLines <==> j in old(noCoverageLines) || Holds(range, j)
    {
      var i: int := range.start;
      while i <= range.end
        invariant range.start <= i
        invariant forall j :: j in noCoverageLines <==> j in old(noCoverageLines) || (Holds(range, j) && j < i)
        decreases range.end - i
      {
        noCoverageLines := noCoverageLines + {i};
        i := i + 1;
      }
    }

    method CountCovered(k: nat)
      requires k < |coveredRanges| && Classified(k)
      modifies this`partialCoverageLines, this`noCoverageLines, this`fullCoverageLines
      ensures Classified(k + 1)
    {
      var range := coveredRanges[k];
      OneMore(coveredRanges, k);
      CheckLineForPartial(range.start);
      CheckLineForPartial(range.end);
      CountInterior(range);
      forall i ensures i in fullCoverageLines <==> IsFull(uncoveredRanges, coveredRanges, k + 1, i) {
        OneMoreRange(uncoveredRanges, coveredRanges, k, i);
      }
    }

    method CountInterior(range: Range)
      modifies this`fullCoverageLines
      ensures forall j :: j in fullCoverageLines <==> j in old(fullCoverageLines) || (Inside(range, j) && j !in noCoverageLines)
    {
      var i: int := range.start + 1;
      while i < range.end
        invariant range.start < i
        invariant forall j :: j in fullCoverageLines <==>
          j in old(fullCoverageLines) || (Inside(range, j) && j < i && j !in noCoverageLines)
        decreases range.end - i
      {
        if i !in noCoverageLines {
          fullCoverageLines := fullCoverageLines + {i};
        }
        i := i + 1;
      }
    }
  }

  lemma OneMore(rs: seq<Range>, k: nat)
    requires k < |rs|
    ensures forall i :: OnBorder(rs, k + 1, i) <==> OnBorder(rs, k, i) || IsBorder(rs[k], i)
    ensures forall i :: InLines(rs, k + 1, i) <==> InLines(rs, k, i) || Holds(rs[k], i)
  {
  }

  lemma OneMoreRange(uncovered: seq<Range>, covered: seq<Range>, k: nat, i: int)
    requires k < |covered|
    ensures IsFull(uncovered, covered, k + 1, i) <==>
      IsFull(uncovered, covered, k, i) || FullInside(uncovered, covered, k, i) ||
      (IsBorder(covered[k], i) && !OnBorder(uncovered, |uncovered|, i))
  {
    OneMore(covered, k);
  }

  // ---- what the classification says

  /** Every line of a range is in one of the three sets, and no other line is. */
  lemma LinesAreClassified(uncovered: seq<Range>, covered: seq<Range>, i: int)
    ensures var n := |covered|;
      IsFull(uncovered, covered, n, i) || IsPartial(uncovered, covered, n, i) || InLines(uncovered, |uncovered|, i) <==>
      OnBorder(covered, n, i) || InInterior(covered, n, i) || InLines(uncovered, |uncovered|, i)
  {
    var n := |covered|;
    if InInterior(covered, n, i) && !InLines(uncovered, |uncovered|, i) {
      var k :| 0 <= k < n && Inside(covered[k], i);
      assert FullInside(uncovered, covered, k, i);
    }
    if k :| 0 <= k < n && FullInside(uncovered, covered, k, i) { assert Inside(covered[k], i); }
  }

  /** The borders of ranges that end no earlier than they begin and the lines inside them are the lines they hold. */
  lemma LinesOfRanges(rs: seq<Range>, i: int)
    requires forall r <- rs :: r.start <= r.end
    ensures OnBorder(rs, |rs|, i) || InInterior(rs, |rs|, i) <==> exists r :: r in rs && r.start <= i <= r.end
    ensures InLines(rs, |rs|, i) <==> exists r :: r in rs && r.start <= i <= r.end
  {
    forall k | 0 <= k < |rs| ensures rs[k] in rs && rs[k].start <= rs[k].end {}
    if r :| r in rs && r.start <= i <= r.end {
      var k :| 0 <= k < |rs| && rs[k] == r;
      assert Holds(rs[k], i) && (IsBorder(rs[k], i) || Inside(rs[k], i));
    }
    if k :| 0 <= k < |rs| && IsBorder(rs[k], i) { assert rs[k] in rs; }
    if k :| 0 <= k < |rs| && Inside(rs[k], i) { assert rs[k] in rs; }
    if k :| 0 <= k < |rs| && Holds(rs[k], i) { assert rs[k] in rs; }
  }

  /** For ranges that end no earlier than they begin: the three sets hold exactly the lines of all ranges. */
  lemma RangesAreClassified(uncovered: seq<Range>, covered: seq<Range>, i: int)
    requires (forall r <- uncovered :: r.start <= r.end) && forall r <- covered :: r.start <= r.end
    ensures var n := |covered|;
      IsFull(uncovered, covered, n, i) || IsPartial(uncovered, covered, n, i) || InLines(uncovered, |uncovered|, i) <==>
      exists r :: r in uncovered + covered && r.start <= i <= r.end
  {
    LinesAreClassified(uncovered, covered, i);
    LinesOfRanges(uncovered, i);
    LinesOfRanges(covered, i);
    assert forall r :: r in uncovered + covered <==> r in uncovered || r in covered;
  }

  /**
   For such ranges, a line that no uncovered range holds is full exactly when a covered one holds it, and never partial.
   */
  lemma CoveredOnlyIsFull(uncovered: seq<Range>, covered: seq<Range>, i: int)
    requires (forall r <- uncovered :: r.start <= r.end) && (forall r <- covered :: r.start <= r.end)
    requires forall r :: r in uncovered ==> !(r.start <= i <= r.end)
    ensures var n := |covered|;
      && (IsFull(uncovered, covered, n, i) <==> exists r :: r in covered && r.start <= i <= r.end)
      && !IsPartial(uncovered, covered, n, i)
  {
    LinesAreClassified(uncovered, covered, i);
    LinesOfRanges(uncovered, i);
    LinesOfRanges(covered, i);
  }

  /** A line is both full and uncovered exactly when a covered range ends or begins inside an uncovered one. */
  lemma FullAndUncovered(uncovered: seq<Range>, covered: seq<Range>, i: int)
    ensures var n := |covered|;
      IsFull(uncovered, covered, n, i) && InLines(uncovered, |uncovered|, i) && !IsPartial(uncovered, covered, n, i) <==>
      OnBorder(covered, n, i) && InLines(uncovered, |uncovered|, i) && !OnBorder(uncovered, |uncovered|, i)
  {
    var n := |covered|;
    forall k | 0 <= k < n && FullInside(uncovered, covered, k, i) && InLines(uncovered, |uncovered|, i)
      ensures IsPartial(uncovered, covered, n, i)
    {
      var j :| 0 <= j < k + 1 && j < |covered| && IsBorder(covered[j], i);
      assert IsBorder(covered[j], i);
    }
  }

  /** A line is both full and partial exactly when a range around it comes no earlier than a covered range bordering it. */
  lemma FullAndPartial(uncovered: seq<Range>, covered: seq<Range>, i: int)
    requires InLines(uncovered, |uncovered|, i)
    ensures var n := |covered|;
      IsFull(uncovered, covered, n, i) && IsPartial(uncovered, covered, n, i) <==>
      && OnBorder(uncovered, |uncovered|, i)
      && exists j, k :: 0 <= j <= k < n && IsBorder(covered[j], i) && Inside(covered[k], i)
  {
    var n := |covered|;
    if IsFull(uncovered, covered, n, i) && IsPartial(uncovered, covered, n, i) {
      var k :| 0 <= k < n && k < |covered| && FullInside(uncovered, covered, k, i);
      var j :| 0 <= j < k + 1 && j < |covered| && IsBorder(covered[j], i);
      assert IsBorder(covered[j], i) && Inside(covered[k], i);
    }
    if j, k :| 0 <= j <= k < n && IsBorder(covered[j], i) && Inside(covered[k], i) {
      if OnBorder(uncovered, |uncovered|, i) {
        assert OnBorder(covered, k + 1, i) && OnBorder(covered, n, i);
        assert FullInside(uncovered, covered, k, i);
      }
    }
  }

  /** The partial and the uncovered lines do not depend on the order of the ranges. */
  lemma PartialIgnoresOrder(uncovered: seq<Range>, covered: seq<Range>, uncovered': seq<Range>, covered': seq<Range>, i: int)
    requires multiset(uncovered') == multiset(uncovered) && multiset(covered') == multiset(covered)
    ensures IsPartial(uncovered, covered, |covered|, i) <==> IsPartial(uncovered', covered', |covered'|, i)
    ensures InLines(uncovered, |uncovered|, i) <==> InLines(uncovered', |uncovered'|, i)
  {
    SameBorders(uncovered, uncovered', i);
    SameBorders(uncovered', uncovered, i);
    SameBorders(covered, covered', i);
    SameBorders(covered', covered, i);
  }

  lemma SameBorders(a: seq<Range>, b: seq<Range>, i: int)
    requires multiset(a) == multiset(b)
    ensures OnBorder(a, |a|, i) ==> OnBorder(b, |b|, i)
    ensures InLines(a, |a|, i) ==> InLines(b, |b|, i)
    ensures InInterior(a, |a|, i) ==> InInterior(b, |b|, i)
  {
    forall k | 0 <= k < |a| ensures a[k] in b { assert a[k] in multiset(a); }
  }

  /** The ranges that begin or end on the line, or those that do not, in their order. */
  ghost function Those(rs: seq<Range>, border: bool, i: int): (those: seq<Range>)
    ensures forall k :: 0 <= k < |those| ==> those[k] in rs && IsBorder(those[k], i) == border
  {
    if rs == [] then [] else (if IsBorder(rs[0], i) == border then [rs[0]] else []) + Those(rs[1..], border, i)
  }

  lemma {:induction false} ThoseAreAll(rs: seq<Range>, i: int)
    ensures multiset(Those(rs, true, i)) + multiset(Those(rs, false, i)) == multiset(rs)
  {
    if rs == [] {
    } else {
      ThoseAreAll(rs[1..], i);
      assert rs == [rs[0]] + rs[1..];
    }
  }

  /** The covered ranges with those that border the line brought to the front, or to the back. */
  ghost function Reordered(covered: seq<Range>, first: bool, i: int): (r: seq<Range>)
    ensures multiset(r) == multiset(covered)
  {
    ThoseAreAll(covered, i);
    Those(covered, first, i) + Those(covered, !first, i)
  }

  /** The one case in which the order counts: a partial line, on which a covered range borders, is inside another one. */
  predicate OrderCounts(uncovered: seq<Range>, covered: seq<Range>, i: int)
  {
    && InLines(uncovered, |uncovered|, i)
    && IsPartial(uncovered, covered, |covered|, i)
    && InInterior(covered, |covered|, i)
  }

  lemma FullWithoutOrder(uncovered: seq<Range>, covered: seq<Range>, i: int)
    requires !OrderCounts(uncovered, covered, i)
    ensures var n := |covered|;
      IsFull(uncovered, covered, n, i) <==>
      || (OnBorder(covered, n, i) && !OnBorder(uncovered, |uncovered|, i))
      || (InInterior(covered, n, i) && !InLines(uncovered, |uncovered|, i))
  {
    var n := |covered|;
    if k :| 0 <= k < n && Inside(covered[k], i) && !InLines(uncovered, |uncovered|, i) {
      assert FullInside(uncovered, covered, k, i);
    }
    forall k | 0 <= k < n && FullInside(uncovered, covered, k, i) ensures !InLines(uncovered, |uncovered|, i) {
      assert InInterior(covered, n, i) by { assert Inside(covered[k], i); }
      assert IsPartial(uncovered, covered, k + 1, i) ==> IsPartial(uncovered, covered, n, i);
    }
  }

  lemma BordersFirstIsFull(uncovered: seq<Range>, covered: seq<Range>, i: int)
    requires OrderCounts(uncovered, covered, i)
    ensures var c := Reordered(covered, true, i); IsFull(uncovered, c, |c|, i)
  {
    var borders, c := Those(covered, true, i), Reordered(covered, true, i);
    SameBorders(covered, c, i);
    var j :| 0 <= j < |c| && IsBorder(c[j], i);
    assert j < |borders|;
    var k :| 0 <= k < |c| && Inside(c[k], i);
    assert |borders| <= k;
    assert FullInside(uncovered, c, k, i);
  }

  lemma BordersLastIsNotFull(uncovered: seq<Range>, covered: seq<Range>, i: int)
    requires OrderCounts(uncovered, covered, i)
    ensures var c := Reordered(covered, false, i); !IsFull(uncovered, c, |c|, i)
  {
    var others, c := Those(covered, false, i), Reordered(covered, false, i);
    forall k | 0 <= k < |c| ensures !FullInside(uncovered, c, k, i) {
      assert Inside(c[k], i) ==> k < |others|;
      assert k < |others| ==> !OnBorder(c, k + 1, i);
    }
  }

  /**
   Whether a line is full is independent of the order of the ranges exactly when it is not both partial and inside
   a covered range. A partial line that no uncovered range holds, which only a range with its end before its start
   gives, is exempt.
   */
  lemma FullIgnoresOrderIff(uncovered: seq<Range>, covered: seq<Range>, i: int)
    ensures (forall u: seq<Range>, c: seq<Range> | multiset(u) == multiset(uncovered) && multiset(c) == multiset(covered) ::
              IsFull(u, c, |c|, i) <==> IsFull(uncovered, covered, |covered|, i))
            <==> !OrderCounts(uncovered, covered, i)
    ensures (forall r <- uncovered :: r.start <= r.end) ==>
            (OrderCounts(uncovered, covered, i) <==>
             IsPartial(uncovered, covered, |covered|, i) && InInterior(covered, |covered|, i))
  {
    if OrderCounts(uncovered, covered, i) {
      BordersFirstIsFull(uncovered, covered, i);
      BordersLastIsNotFull(uncovered, covered, i);
      var first, last := Reordered(covered, true, i), Reordered(covered, false, i);
      assert IsFull(uncovered, first, |first|, i) != IsFull(uncovered, last, |last|, i);
    } else {
      forall u: seq<Range>, c: seq<Range> | multiset(u) == multiset(uncovered) && multiset(c) == multiset(covered)
        ensures IsFull(u, c, |c|, i) <==> IsFull(uncovered, covered, |covered|, i)
      {
        PartialIgnoresOrder(uncovered, covered, u, c, i);
        SameBorders(u, uncovered, i);
        SameBorders(uncovered, u, i);
        SameBorders(c, covered, i);
        SameBorders(covered, c, i);
        FullWithoutOrder(uncovered, covered, i);
        FullWithoutOrder(u, c, i);
      }
    }
    if (forall r <- uncovered :: r.start <= r.end) && OnBorder(uncovered, |uncovered|, i) {
      var k :| 0 <= k < |uncovered| && IsBorder(uncovered[k], i);
      assert uncovered[k] in uncovered && Holds(uncovered[k], i);
    }
  }

  /** Two orders of the same ranges, one of which makes line 2 full. */
  lemma FullDependsOnOrder()
    ensures var one, outer := Range(2, 2), Range(1, 3);
      !IsFull([one], [outer, one], 2, 2) && IsFull([one], [one, outer], 2, 2)
  {
    var one, outer := Range(2, 2), Range(1, 3);
    assert IsBorder([one][0], 2) && Holds([one][0], 2);
    assert IsBorder([one, outer][0], 2) && FullInside([one], [one, outer], 1, 2);
    assert !FullInside([one], [outer, one], 0, 2) && !FullInside([one], [outer, one], 1, 2);
  }
}
