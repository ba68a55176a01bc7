/** What a whole pass of the recomposition engine guarantees: no row is
    lost, duplicated or reordered; heights are conserved; pages that
    already fit pass through unchanged; and the individual branches of the
    loop behave as the program's comments describe. */
module EngineProperties {

  import opened Wrappers
  import opened Pages
  import opened Engine

  /** Splitting the decoded pages at a turn boundary. */
  lemma DecodedFrom(inputs: seq<Option<Page>>, i: nat, next: nat)
    requires i <= next <= i + 1 && next <= |inputs|
    ensures Rows(Decoded(inputs[i..])) == Taken(inputs, i, next) + Rows(Decoded(inputs[next..]))
  {
    if next == i + 1 {
      assert inputs[i..][1..] == inputs[next..];
      RowsAppend(if inputs[i].Some? then [inputs[i].value] else [], Decoded(inputs[next..]));
      if inputs[i].Some? {
        assert Rows([inputs[i].value]) == inputs[i].value.rows;
      }
    }
  }

  /** One turn followed by the rest of the pass, on rows. */
  lemma CombineTurn(e: seq<seq<Pixel>>, held: seq<seq<Pixel>>, later: seq<seq<Pixel>>,
                    rest: seq<seq<Pixel>>, acc: seq<seq<Pixel>>, taken: seq<seq<Pixel>>)
    requires PrefixRows(later, held + rest)
    requires PrefixRows(e + held, acc + taken)
    ensures PrefixRows(e + later, acc + (taken + rest))
  {
    PrefixRowsRefl(e);
    PrefixRowsConcat(e, e, later, held + rest);
    PrefixRowsRefl(rest);
    PrefixRowsConcat(e + held, acc + taken, rest, rest);
    assert e + (held + rest) == e + held + rest;
    assert acc + taken + rest == acc + (taken + rest);
    PrefixRowsTransitive(e + later, e + held + rest, acc + (taken + rest));
  }

  lemma CombineTurnExact(e: seq<seq<Pixel>>, held: seq<seq<Pixel>>, later: seq<seq<Pixel>>,
                         rest: seq<seq<Pixel>>, acc: seq<seq<Pixel>>, taken: seq<seq<Pixel>>)
    requires later == held + rest
    requires e + held == acc + taken
    ensures e + later == acc + (taken + rest)
  {
    assert e + (held + rest) == (e + held) + rest;
  }

  /** From any state of the loop on, the saved pages hold the rows of the
      accumulator and of the remaining decoded pages, in order and each row
      at most cut short on the right (by the minimum-width concatenation). */
  lemma {:induction false} RunRows(inputs: seq<Option<Page>>, i: nat, acc: Option<Page>)
    requires AllDecodable(inputs) && i <= |inputs| && AccOk(acc)
    ensures PrefixRows(Rows(Run(inputs, i, acc)), AccRows(acc) + Rows(Decoded(inputs[i..])))
    decreases |inputs| - i, Pending(acc), Over(acc)
  {
    if i == |inputs| && acc.None? {
      assert inputs[i..] == [];
    } else {
      var r := Step(inputs, i, acc);
      RunUnfold(inputs, i, acc);
      RunRows(inputs, r.next, r.acc);
      RowsAppend(r.emitted, Run(inputs, r.next, r.acc));
      DecodedFrom(inputs, i, r.next);
      CombineTurn(Rows(r.emitted), AccRows(r.acc), Rows(Run(inputs, r.next, r.acc)),
                  Rows(Decoded(inputs[r.next..])), AccRows(acc), Taken(inputs, i, r.next));
    }
  }

  /** The saved pages hold exactly as many rows as the decoded inputs, in
      the same order, each row kept or cut short on the right. */
  lemma RecomposeKeepsRows(inputs: seq<Option<Page>>)
    requires AllDecodable(inputs)
    ensures PrefixRows(Rows(Recompose(inputs)), Rows(Decoded(inputs)))
  {
    RunRows(inputs, 0, None);
    assert inputs[0..] == inputs;
  }

  /** The total height of the saved pages is the total height of the
      pages that decoded. */
  lemma RecomposeConservesHeight(inputs: seq<Option<Page>>)
    requires AllDecodable(inputs)
    ensures SumHeights(Recompose(inputs)) == SumHeights(Decoded(inputs))
  {
    RecomposeKeepsRows(inputs);
    SumHeightsIsRowCount(Recompose(inputs));
    SumHeightsIsRowCount(Decoded(inputs));
  }

  /** Every decoded page has width `w`. */
  predicate SameWidth(inputs: seq<Option<Page>>, w: nat) {
    forall k :: 0 <= k < |inputs| && inputs[k].Some? ==> inputs[k].value.width == w
  }

  lemma SettleSameWidth(p: Page, w: nat)
    requires Decodable(p) && p.width == w
    ensures Rows(Settle(p).emitted) + AccRows(Settle(p).acc) == p.rows
    ensures Settle(p).acc.Some? ==> Settle(p).acc.value.width == w
  {
  }

  /** Pages of one width are always similar, and they merge without a cut. */
  lemma MergeSameWidth(a: Page, n: Page, w: nat)
    requires Decodable(a) && Decodable(n) && Short(a) && a.width == w && n.width == w
    ensures SimilarWidth(a.width, n.width, Tolerance)
    ensures Rows(Merge(a, n).emitted) + AccRows(Merge(a, n).acc) == a.rows + n.rows
    ensures Merge(a, n).acc.Some? ==> Merge(a, n).acc.value.width == w
  {
  }

  /** With one width throughout nothing is cut: a turn passes rows on
      exactly, and the accumulator keeps that width. */
  lemma StepSameWidth(inputs: seq<Option<Page>>, i: nat, acc: Option<Page>, w: nat)
    requires AllDecodable(inputs) && i <= |inputs| && AccOk(acc)
    requires i < |inputs| || acc.Some?
    requires (i < |inputs| && inputs[i].Some? ==> inputs[i].value.width == w) && (acc.Some? ==> acc.value.width == w)
    ensures var r := Step(inputs, i, acc);
      Rows(r.emitted) + AccRows(r.acc) == AccRows(acc) + Taken(inputs, i, r.next) &&
      (r.acc.Some? ==> r.acc.value.width == w)
  {
    match acc
    case None =>
      if inputs[i].Some? {
        SettleSameWidth(inputs[i].value, w);
      }
    case Some(a) =>
      if !Short(a) {
        SettleSameWidth(a, w);
      } else if i < |inputs| {
        if inputs[i].Some? {
          MergeSameWidth(a, inputs[i].value, w);
        }
      } else {
        assert Rows([a]) == a.rows;
      }
  }

  /** With one width throughout, the saved pages hold exactly the rows of
      the accumulator and of the remaining decoded pages, in order. */
  lemma {:induction false} RunRowsSameWidth(inputs: seq<Option<Page>>, i: nat, acc: Option<Page>, w: nat)
    requires AllDecodable(inputs) && i <= |inputs| && AccOk(acc)
    requires SameWidth(inputs, w) && (acc.Some? ==> acc.value.width == w)
    ensures Rows(Run(inputs, i, acc)) == AccRows(acc) + Rows(Decoded(inputs[i..]))
    decreases |inputs| - i, Pending(acc), Over(acc)
  {
    if i == |inputs| && acc.None? {
      assert inputs[i..] == [];
    } else {
      var r := Step(inputs, i, acc);
      RunUnfold(inputs, i, acc);
      StepSameWidth(inputs, i, acc, w);
      RunRowsSameWidth(inputs, r.next, r.acc, w);
      RowsAppend(r.emitted, Run(inputs, r.next, r.acc));
      DecodedFrom(inputs, i, r.next);
      CombineTurnExact(Rows(r.emitted), AccRows(r.acc), Rows(Run(inputs, r.next, r.acc)),
                       Rows(Decoded(inputs[r.next..])), AccRows(acc), Taken(inputs, i, r.next));
    }
  }

  /** Pages of one width come out as exactly their rows, re-cut into pages. */
  lemma RecomposeSameWidth(inputs: seq<Option<Page>>, w: nat)
    requires AllDecodable(inputs) && SameWidth(inputs, w)
    ensures Rows(Recompose(inputs)) == Rows(Decoded(inputs))
  {
    RunRowsSameWidth(inputs, 0, None, w);
    assert inputs[0..] == inputs;
  }

  /** Every decoded page already has its target height. */
  predicate AllFit(inputs: seq<Option<Page>>) {
    forall k :: 0 <= k < |inputs| && inputs[k].Some? ==>
      inputs[k].value.Height() == TargetHeight(inputs[k].value.width)
  }

  lemma {:induction false} RunAllFit(inputs: seq<Option<Page>>, i: nat)
    requires AllDecodable(inputs) && AllFit(inputs) && i <= |inputs|
    ensures Run(inputs, i, None) == Decoded(inputs[i..])
    decreases |inputs| - i
  {
    if i == |inputs| {
      assert inputs[i..] == [];
    } else {
      RunAllFit(inputs, i + 1);
      assert inputs[i..][1..] == inputs[i + 1..];
    }
  }

  /** Pages that already fit come out one for one, unchanged; so a second
      pass over the output of a pass over such pages changes nothing. */
  lemma RecomposeAllFit(inputs: seq<Option<Page>>)
    requires AllDecodable(inputs) && AllFit(inputs)
    ensures Recompose(inputs) == Decoded(inputs)
  {
    RunAllFit(inputs, 0);
    assert inputs[0..] == inputs;
  }

  /** A page that fails to decode is skipped and nothing else changes. */
  lemma RunSkipsUndecodable(inputs: seq<Option<Page>>, i: nat, acc: Option<Page>)
    requires AllDecodable(inputs) && i < |inputs| && AccOk(acc)
    requires inputs[i].None? && (acc.Some? ==> Short(acc.value))
    ensures Run(inputs, i, acc) == Run(inputs, i + 1, acc)
  {
  }

  /** With no accumulator the next page is settled: an exact fit is saved
      unchanged, a shorter page becomes the accumulator, a taller one is
      cut into target-high slices with any remainder kept. */
  lemma RunFreshPage(inputs: seq<Option<Page>>, i: nat, p: Page)
    requires AllDecodable(inputs) && i < |inputs| && inputs[i] == Some(p)
    ensures Run(inputs, i, None) == Settle(p).emitted + Run(inputs, i + 1, Settle(p).acc)
  {
    RunUnfold(inputs, i, None);
  }

  /** Exact-fit passthrough: a page of its target height is saved unchanged. */
  lemma RunExactFit(inputs: seq<Option<Page>>, i: nat, p: Page)
    requires AllDecodable(inputs) && i < |inputs| && inputs[i] == Some(p)
    requires p.Height() == TargetHeight(p.width)
    ensures Run(inputs, i, None) == [p] + Run(inputs, i + 1, None)
  {
    RunFreshPage(inputs, i, p);
  }

  /** A page below its target height becomes the accumulator. */
  lemma RunShortPage(inputs: seq<Option<Page>>, i: nat, p: Page)
    requires AllDecodable(inputs) && i < |inputs| && inputs[i] == Some(p)
    requires p.Height() < TargetHeight(p.width)
    ensures Run(inputs, i, None) == Run(inputs, i + 1, Some(p))
  {
    RunFreshPage(inputs, i, p);
  }

  /** A held accumulator and a next page of similar width that supplies
      exactly the missing rows: one page of the target height is saved and
      nothing is held. */
  lemma RunMergeExact(inputs: seq<Option<Page>>, i: nat, a: Page, n: Page)
    requires AllDecodable(inputs) && i < |inputs| && Decodable(a) && Short(a)
    requires inputs[i] == Some(n) && SimilarWidth(a.width, n.width, Tolerance)
    requires n.Height() == TargetHeight(a.width) - a.Height()
    ensures Run(inputs, i, Some(a)) == [VerticalConcat(a, n)] + Run(inputs, i + 1, None)
    ensures VerticalConcat(a, n).Height() == TargetHeight(a.width)
  {
    RunUnfold(inputs, i, Some(a));
  }

  /** Widths too far apart: the accumulator is saved as it is and the next
      page becomes the accumulator instead of being dropped. */
  lemma RunWidthMismatch(inputs: seq<Option<Page>>, i: nat, a: Page, n: Page)
    requires AllDecodable(inputs) && i < |inputs| && Decodable(a) && Short(a)
    requires inputs[i] == Some(n) && !SimilarWidth(a.width, n.width, Tolerance)
    ensures Run(inputs, i, Some(a)) == [a] + Run(inputs, i + 1, Some(n))
  {
  }

  /** At the end of the input a short accumulator is saved as the last page. */
  lemma RunFinalFlush(inputs: seq<Option<Page>>, a: Page)
    requires AllDecodable(inputs) && Decodable(a) && Short(a)
    ensures Run(inputs, |inputs|, Some(a)) == [a]
  {
  }

  /** The safety check: an accumulator that reached its target is settled
      before anything more is read (lines 142-162). */
  lemma RunSafetyCheck(inputs: seq<Option<Page>>, i: nat, a: Page)
    requires AllDecodable(inputs) && i <= |inputs| && Decodable(a) && !Short(a)
    ensures Run(inputs, i, Some(a)) == Settle(a).emitted + Run(inputs, i, Settle(a).acc)
  {
    RunUnfold(inputs, i, Some(a));
  }

  /** A short accumulator and a next page of similar width are merged:
      cropped to the rows still needed, taken whole when they do not
      reach the target, or taken whole into an exact fit (lines 178-196). */
  lemma RunMerge(inputs: seq<Option<Page>>, i: nat, a: Page, n: Page)
    requires AllDecodable(inputs) && i < |inputs| && Decodable(a) && Short(a)
    requires inputs[i] == Some(n) && SimilarWidth(a.width, n.width, Tolerance)
    ensures Run(inputs, i, Some(a)) == Merge(a, n).emitted + Run(inputs, i + 1, Merge(a, n).acc)
  {
    RunUnfold(inputs, i, Some(a));
  }

  /** A page adopted after a width mismatch that is already taller than
      its own target is cut up by the safety check of the next turn, before
      anything more is read (lines 174-177 and 142-162). */
  lemma RunAdoptTall(inputs: seq<Option<Page>>, i: nat, a: Page, n: Page)
    requires AllDecodable(inputs) && i < |inputs| && Decodable(a) && Short(a)
    requires inputs[i] == Some(n) && !SimilarWidth(a.width, n.width, Tolerance)
    requires n.Height() >= TargetHeight(n.width)
    ensures Run(inputs, i, Some(a)) == [a] + (Settle(n).emitted + Run(inputs, i + 1, Settle(n).acc))
  {
    RunWidthMismatch(inputs, i, a, n);
    RunSafetyCheck(inputs, i + 1, n);
  }

  /** No page saved in a turn is taller than the target of the page that
      anchors the turn: the accumulator when there is one, otherwise the
      page read; a page read on its own is saved only at its target. */
  lemma StepHeightBound(inputs: seq<Option<Page>>, i: nat, acc: Option<Page>)
    requires AllDecodable(inputs) && i <= |inputs| && AccOk(acc)
    requires i < |inputs| || acc.Some?
    ensures var r := Step(inputs, i, acc);
      acc.Some? ==> forall k :: 0 <= k < |r.emitted| ==> r.emitted[k].Height() <= TargetHeight(acc.value.width)
    ensures var r := Step(inputs, i, acc);
      acc.None? ==> forall k :: 0 <= k < |r.emitted| ==>
        inputs[i].Some? && r.emitted[k].Height() == TargetHeight(inputs[i].value.width)
  {
  }

  function Heights(ps: seq<Page>): (hs: seq<nat>)
    ensures |hs| == |ps| && forall k :: 0 <= k < |ps| ==> hs[k] == ps[k].Height()
  {
    if ps == [] then [] else [ps[0].Height()] + Heights(ps[1..])
  }

  /** Two pages of one width whose heights add up to the target become
      exactly one page holding both. */
  lemma TwoPagesMergeExactly(p1: Page, p2: Page)
    requires Decodable(p1) && Decodable(p2) && p1.width == p2.width
    requires p1.Height() < TargetHeight(p1.width)
    requires p1.Height() + p2.Height() == TargetHeight(p1.width)
    ensures Recompose([Some(p1), Some(p2)]) == [Page(p1.width, p1.rows + p2.rows)]
  {
    var inputs := [Some(p1), Some(p2)];
    VerticalConcatSameWidth(p1, p2);
    RunUnfold(inputs, 0, None);
    RunUnfold(inputs, 1, Some(p1));
  }

  /** Width 1000, so the target is 2500: heights 2500, 1200, 1300 and 4000
      come out as 2500, 2500, 2500 and 1500. */
  lemma ScenarioWidth1000(inputs: seq<Option<Page>>, p1: Page, p2: Page, p3: Page, p4: Page)
    requires inputs == [Some(p1), Some(p2), Some(p3), Some(p4)]
    requires Decodable(p1) && Decodable(p2) && Decodable(p3) && Decodable(p4)
    requires p1.width == p2.width == p3.width == p4.width == 1000
    requires p1.Height() == 2500 && p2.Height() == 1200 && p3.Height() == 1300 && p4.Height() == 4000
    ensures Heights(Recompose(inputs)) == [2500, 2500, 2500, 1500]
  {
    assert AllDecodable(inputs);
    var x, y, z := Run(inputs, 0, None), Run(inputs, 1, None), Run(inputs, 3, None);
    var b, c, d := VerticalConcat(p2, p3), Crop(p4, 0, 2500), Crop(p4, 2500, 4000);
    assert z == [c, d] && c.Height() == 2500 && d.Height() == 1500 by { ScenarioTail(inputs, p4); }
    assert y == [b] + z && b.Height() == 2500 by { ScenarioMiddle(inputs, p2, p3); }
    assert x == [p1] + y by {
      assert TargetHeight(1000) == 2500;
      RunExactFit(inputs, 0, p1);
    }
    ChainOfFour(x, y, z, p1, b, c, d);
  }

  lemma ChainOfFour(x: seq<Page>, y: seq<Page>, z: seq<Page>, a: Page, b: Page, c: Page, d: Page)
    requires x == [a] + y && y == [b] + z && z == [c, d]
    requires a.Height() == 2500 && b.Height() == 2500 && c.Height() == 2500 && d.Height() == 1500
    ensures Heights(x) == [2500, 2500, 2500, 1500]
  {
  }

  lemma ScenarioTail(inputs: seq<Option<Page>>, p4: Page)
    requires AllDecodable(inputs) && |inputs| == 4 && inputs[3] == Some(p4)
    requires p4.width == 1000 && p4.Height() == 4000
    ensures Run(inputs, 3, None) == [Crop(p4, 0, 2500), Crop(p4, 2500, 4000)]
  {
    SettleTallExample(p4);
    RunFinalFlush(inputs, Crop(p4, 2500, 4000));
    RunFreshPage(inputs, 3, p4);
  }

  lemma ScenarioMiddle(inputs: seq<Option<Page>>, p2: Page, p3: Page)
    requires AllDecodable(inputs) && |inputs| == 4 && inputs[1] == Some(p2) && inputs[2] == Some(p3)
    requires p2.width == p3.width == 1000 && p2.Height() == 1200 && p3.Height() == 1300
    ensures Run(inputs, 1, None) == [VerticalConcat(p2, p3)] + Run(inputs, 3, None)
    ensures VerticalConcat(p2, p3).Height() == 2500
  {
    assert TargetHeight(1000) == 2500;
    RunShortPage(inputs, 1, p2);
    RunMergeExact(inputs, 2, p2, p3);
  }

  /** A 1000-wide, 4000-high page: one full slice, and 1500 rows kept. */
  lemma SettleTallExample(p: Page)
    requires Decodable(p) && p.width == 1000 && p.Height() == 4000
    ensures Settle(p) == Outcome([Crop(p, 0, 2500)], Some(Crop(p, 2500, 4000)))
  {
    assert TargetHeight(1000) == 2500;
    SplitFromUnfold(p, 2500, 0);
    SplitFromUnfold(p, 2500, 2500);
    assert Split(p, 2500) == [Crop(p, 0, 2500), Crop(p, 2500, 4000)];
  }
}
