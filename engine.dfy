/** The recomposition engine of `process_images`: a single pass over the
    decoded pages that holds at most one accumulator and saves finished
    pages under consecutive numbers. `Step` is one turn of its loop,
    `Run` the rest of the pass, and `ProcessImages` the loop itself. */
module Engine {

  import opened Wrappers
  import opened Decimal
  import opened Pages

  /** What one decision leaves behind: pages to save, in order, and the
      new accumulator. */
  datatype Outcome = Outcome(emitted: seq<Page>, acc: Option<Page>)

  /** One turn of the loop: pages saved, the new input cursor, the new
      accumulator. */
  datatype StepResult = StepResult(emitted: seq<Page>, next: nat, acc: Option<Page>)

  predicate AccOk(acc: Option<Page>) {
    acc.Some? ==> Decodable(acc.value)
  }

  function AccRows(acc: Option<Page>): seq<seq<Pixel>> {
    if acc.Some? then acc.value.rows else []
  }

  /** The page is shorter than the target for its own width. */
  predicate Short(p: Page) {
    p.Height() < TargetHeight(p.width)
  }

  predicate AllRectangular(ps: seq<Page>) {
    forall k :: 0 <= k < |ps| ==> Rectangular(ps[k])
  }

  /** Cases 1 to 3 for a freshly read page, which are also what the safety
      check does with an accumulator that reached its target: a page taller
      than the target is cut into target-high slices and its remainder is
      kept, an exact fit is saved as it is, a shorter page is kept. */
  function Settle(p: Page): (o: Outcome)
    requires Decodable(p)
    ensures Rows(o.emitted) + AccRows(o.acc) == p.rows
    ensures AllRectangular(o.emitted)
    ensures forall k :: 0 <= k < |o.emitted| ==>
              o.emitted[k].width == p.width && o.emitted[k].Height() == TargetHeight(p.width)
    ensures o.acc.Some? ==> Decodable(o.acc.value) && o.acc.value.width == p.width && Short(o.acc.value)
    ensures p.Height() > TargetHeight(p.width) && o.acc.Some? ==> o.acc.value.Height() > 0
    ensures p.Height() == TargetHeight(p.width) ==> o == Outcome([p], None)
    ensures p.Height() < TargetHeight(p.width) ==> o == Outcome([], Some(p))
  {
    var t := TargetHeight(p.width);
    if p.Height() > t then
      var parts := Split(p, t);
      var last := parts[|parts| - 1];
      SplitButLast(p, t);
      assert parts[..|parts| - 1] + [last] == parts;
      if last.Height() == t then Outcome(parts[..|parts| - 1] + [last], None)
      else Outcome(parts[..|parts| - 1], Some(last))
    else if p.Height() == t then
      assert Rows([p]) == p.rows;
      Outcome([p], None)
    else
      Outcome([], Some(p))
  }

  /** The merge step for an accumulator `a` below its target and a next
      page `n` of similar width: take just enough rows of `n` to reach the
      target, or all of `n` when that is not more than enough. */
  function Merge(a: Page, n: Page): (o: Outcome)
    requires Decodable(a) && Decodable(n) && Short(a)
    ensures AllRectangular(o.emitted)
    ensures |o.emitted| <= 1
    ensures |o.emitted| == 1 <==> n.Height() >= TargetHeight(a.width) - a.Height()
    ensures forall k :: 0 <= k < |o.emitted| ==>
              o.emitted[k].Height() == TargetHeight(a.width) && o.emitted[k].width == Min(a.width, n.width)
    ensures n.Height() > TargetHeight(a.width) - a.Height() ==>
              o.acc == Some(Page(n.width, n.rows[TargetHeight(a.width) - a.Height()..]))
    ensures n.Height() == TargetHeight(a.width) - a.Height() ==> o.acc.None?
    ensures n.Height() < TargetHeight(a.width) - a.Height() ==>
              o.acc.Some? && o.acc.value.Height() == a.Height() + n.Height() < TargetHeight(a.width)
              && o.acc.value.width == Min(a.width, n.width)
    ensures o.acc.Some? ==> Decodable(o.acc.value)
    ensures PrefixRows(Rows(o.emitted) + AccRows(o.acc), a.rows + n.rows)
    ensures a.width == n.width ==>
              Rows(o.emitted) + AccRows(o.acc) == a.rows + n.rows &&
              (forall k :: 0 <= k < |o.emitted| ==> o.emitted[k].width == a.width) &&
              (o.acc.Some? ==> o.acc.value.width == a.width)
  {
    var t := TargetHeight(a.width);
    var needed := t - a.Height();
    if n.Height() > needed then
      var (top, leftover) := CropTop(n, needed);
      var merged := VerticalConcat(a, top);
      VerticalConcatPrefix(a, top);
      assert Rows([merged]) == merged.rows;
      assert a.rows + top.rows + leftover.rows == a.rows + n.rows;
      PrefixRowsConcat(merged.rows, a.rows + top.rows, leftover.rows, leftover.rows);
      VerticalConcatSameWidth(a, top);
      Outcome([merged], if leftover.Height() > 0 then Some(leftover) else None)
    else if n.Height() == needed then
      var merged := VerticalConcat(a, n);
      VerticalConcatPrefix(a, n);
      assert Rows([merged]) == merged.rows;
      VerticalConcatSameWidth(a, n);
      Outcome([merged], None)
    else
      var merged := VerticalConcat(a, n);
      VerticalConcatPrefix(a, n);
      VerticalConcatSameWidth(a, n);
      Outcome([], Some(merged))
  }

  /** Every page the decoder returned is usable by the engine. */
  predicate AllDecodable(inputs: seq<Option<Page>>) {
    forall k :: 0 <= k < |inputs| && inputs[k].Some? ==> Decodable(inputs[k].value)
  }

  /** The pages that decoded, in input order. */
  function Decoded(inputs: seq<Option<Page>>): seq<Page> {
    if inputs == [] then []
    else (if inputs[0].Some? then [inputs[0].value] else []) + Decoded(inputs[1..])
  }

  function Pending(acc: Option<Page>): nat {
    if acc.Some? then 1 else 0
  }

  /** The accumulator has reached its target and must be settled first. */
  function Over(acc: Option<Page>): nat {
    if acc.Some? && !Short(acc.value) then 1 else 0
  }

  /** The rows of the input a turn consumed, if it decoded. */
  function Taken(inputs: seq<Option<Page>>, i: nat, next: nat): seq<seq<Pixel>>
    requires i <= next <= |inputs|
  {
    if next > i && inputs[i].Some? then inputs[i].value.rows else []
  }

  /** One turn of the loop at lines 102-202. */
  function Step(inputs: seq<Option<Page>>, i: nat, acc: Option<Page>): (r: StepResult)
    requires AllDecodable(inputs) && i <= |inputs| && AccOk(acc)
    requires i < |inputs| || acc.Some?
    ensures i <= r.next <= i + 1 && r.next <= |inputs|
    ensures AccOk(r.acc) && AllRectangular(r.emitted)
    ensures r.next > i || Pending(r.acc) < Pending(acc)
         || (Pending(r.acc) == Pending(acc) && Over(r.acc) < Over(acc))
    ensures PrefixRows(Rows(r.emitted) + AccRows(r.acc), AccRows(acc) + Taken(inputs, i, r.next))
  {
    match acc
    case None =>
      (match inputs[i]
       case None => StepResult([], i + 1, None)
       case Some(p) =>
         var o := Settle(p);
         PrefixRowsRefl(p.rows);
         StepResult(o.emitted, i + 1, o.acc))
    case Some(a) =>
      if !Short(a) then
        var o := Settle(a);
        PrefixRowsRefl(a.rows);
        StepResult(o.emitted, i, o.acc)
      else if i < |inputs| then
        match inputs[i]
        case None =>
          PrefixRowsRefl(a.rows);
          StepResult([], i + 1, acc)
        case Some(n) =>
          if !SimilarWidth(a.width, n.width, Tolerance) then
            assert Rows([a]) == a.rows;
            PrefixRowsRefl(a.rows + n.rows);
            StepResult([a], i + 1, Some(n))
          else
            var o := Merge(a, n);
            StepResult(o.emitted, i + 1, o.acc)
      else
        assert Rows([a]) == a.rows;
        PrefixRowsRefl(a.rows);
        StepResult([a], i, None)
  }

  lemma PrefixRowsRefl(xs: seq<seq<Pixel>>)
    ensures PrefixRows(xs, xs)
  {
  }

  /** The pages saved from cursor `i` with accumulator `acc` to the end of
      the pass. The pass ends only with every input consumed and no
      accumulator. */
  function Run(inputs: seq<Option<Page>>, i: nat, acc: Option<Page>): seq<Page>
    requires AllDecodable(inputs) && i <= |inputs| && AccOk(acc)
    decreases |inputs| - i, Pending(acc), Over(acc)
  {
    if i == |inputs| && acc.None? then []
    else
      var r := Step(inputs, i, acc);
      r.emitted + Run(inputs, r.next, r.acc)
  }

  /** The pages `process_images` saves, in order. */
  function Recompose(inputs: seq<Option<Page>>): seq<Page>
    requires AllDecodable(inputs)
  {
    Run(inputs, 0, None)
  }

  /** A page written by `save_image` under the name `<n>.webp`. */
  datatype SavedPage = SavedPage(name: string, page: Page)

  function FileName(index: nat): string {
    DecimalString(index) + ".webp"
  }

  /** The k-th saved file (from 0) is named k + 1 and holds `out[k]`. */
  ghost predicate Numbered(saved: seq<SavedPage>, out: seq<Page>) {
    |saved| == |out| && forall k :: 0 <= k < |saved| ==> saved[k] == SavedPage(FileName(k + 1), out[k])
  }

  /** Lines 116-128 and 144-156: split a page taller than its target,
      save every slice but the last, then save the last one too if it is
      full height or else keep it as the accumulator. */
  method SaveSplit(img: Page, desired: nat, saved: seq<SavedPage>, pageIndex: nat, ghost out: seq<Page>)
    returns (saved': seq<SavedPage>, pageIndex': nat, acc: Option<Page>, ghost out': seq<Page>)
    requires Decodable(img) && desired == TargetHeight(img.width) && img.Height() > desired
    requires Numbered(saved, out) && pageIndex == |saved| + 1
    ensures Numbered(saved', out') && pageIndex' == |saved'| + 1
    ensures out' == out + Settle(img).emitted && acc == Settle(img).acc
  {
    var parts := SplitImage(img, desired);
    saved', pageIndex', out' := saved, pageIndex, out;
    for j := 0 to |parts| - 1
      invariant Numbered(saved', out') && pageIndex' == |saved'| + 1
      invariant out' == out + parts[..j]
    {
      saved' := saved' + [SavedPage(FileName(pageIndex'), parts[j])];
      out' := out' + [parts[j]];
      pageIndex' := pageIndex' + 1;
    }
    var last := parts[|parts| - 1];
    if last.Height() == desired {
      saved' := saved' + [SavedPage(FileName(pageIndex'), last)];
      out' := out' + [last];
      pageIndex' := pageIndex' + 1;
      acc := None;
    } else {
      acc := Some(last);
    }
  }

  /** The loop of `process_images` over the decode results, in input
      order: the saved files are named 1, 2, ... and hold exactly the
      pages of `Recompose`. */
  method ProcessImages(inputs: seq<Option<Page>>) returns (saved: seq<SavedPage>)
    requires AllDecodable(inputs)
    ensures |saved| == |Recompose(inputs)|
    ensures forall k :: 0 <= k < |saved| ==> saved[k] == SavedPage(FileName(k + 1), Recompose(inputs)[k])
  {
    saved := [];
    var pageIndex := 1;
    var accumulator: Option<Page> := None;
    var i := 0;
    ghost var out: seq<Page> := [];
    while i < |inputs| || accumulator.Some?
      invariant i <= |inputs| && AccOk(accumulator)
      invariant Numbered(saved, out) && pageIndex == |saved| + 1
      invariant out + Run(inputs, i, accumulator) == Recompose(inputs)
      decreases |inputs| - i, Pending(accumulator), Over(accumulator)
    {
      ghost var i0, acc0, out0 := i, accumulator, out;
      if accumulator.None? {
        saved, pageIndex, accumulator, i, out := TakeNext(inputs, i, saved, pageIndex, out);
      } else {
        saved, pageIndex, accumulator, i, out := Extend(inputs, i, accumulator.value, saved, pageIndex, out);
      }
      TurnDone(inputs, i0, acc0, out0, out, i, accumulator);
    }
  }

  /** Lines 104-137: with no accumulator, read the next page and settle it. */
  method TakeNext(inputs: seq<Option<Page>>, i: nat, saved: seq<SavedPage>, pageIndex: nat, ghost out: seq<Page>)
    returns (saved': seq<SavedPage>, pageIndex': nat, accumulator: Option<Page>, i': nat, ghost out': seq<Page>)
    requires AllDecodable(inputs) && i < |inputs|
    requires Numbered(saved, out) && pageIndex == |saved| + 1
    ensures Numbered(saved', out') && pageIndex' == |saved'| + 1
    ensures var r := Step(inputs, i, None); out' == out + r.emitted && i' == r.next && accumulator == r.acc
  {
    saved', pageIndex', accumulator, out' := saved, pageIndex, None, out;
    var img := inputs[i];
    i' := i + 1;
    if img.Some? {
      var page := img.value;
      var desired := TargetHeight(page.width);
      if page.Height() > desired {
        saved', pageIndex', accumulator, out' := SaveSplit(page, desired, saved, pageIndex, out);
      } else if page.Height() == desired {
        saved' := saved + [SavedPage(FileName(pageIndex), page)];
        out' := out + [page];
        pageIndex' := pageIndex + 1;
        accumulator := None;
      } else {
        accumulator := Some(page);
      }
    }
  }

  /** Lines 138-202: with an accumulator, settle it if it reached its
      target; otherwise flush it at the end of the input, flush it on a
      width mismatch, or merge the next page into it. */
  method Extend(inputs: seq<Option<Page>>, i: nat, acc: Page, saved: seq<SavedPage>, pageIndex: nat, ghost out: seq<Page>)
    returns (saved': seq<SavedPage>, pageIndex': nat, accumulator: Option<Page>, i': nat, ghost out': seq<Page>)
    requires AllDecodable(inputs) && i <= |inputs| && Decodable(acc)
    requires Numbered(saved, out) && pageIndex == |saved| + 1
    ensures Numbered(saved', out') && pageIndex' == |saved'| + 1
    ensures var r := Step(inputs, i, Some(acc)); out' == out + r.emitted && i' == r.next && accumulator == r.acc
  {
    saved', pageIndex', accumulator, i', out' := saved, pageIndex, Some(acc), i, out;
    var desired := TargetHeight(acc.width);
    if acc.Height() >= desired {
      if acc.Height() > desired {
        saved', pageIndex', accumulator, out' := SaveSplit(acc, desired, saved, pageIndex, out);
      } else {
        saved' := saved + [SavedPage(FileName(pageIndex), acc)];
        out' := out + [acc];
        pageIndex' := pageIndex + 1;
        accumulator := None;
      }
    } else if i < |inputs| {
      var nextImg := inputs[i];
      i' := i + 1;
      if nextImg.Some? {
        var next := nextImg.value;
        if !SimilarWidth(acc.width, next.width, Tolerance) {
          saved' := saved + [SavedPage(FileName(pageIndex), acc)];
          out' := out + [acc];
          pageIndex' := pageIndex + 1;
          accumulator := Some(next);
        } else {
          var needed := desired - acc.Height();
          if next.Height() > needed {
            var (top, leftover) := CropTop(next, needed);
            var merged := VerticalConcat(acc, top);
            saved' := saved + [SavedPage(FileName(pageIndex), merged)];
            out' := out + [merged];
            pageIndex' := pageIndex + 1;
            accumulator := if leftover.Height() > 0 then Some(leftover) else None;
          } else if next.Height() == needed {
            var merged := VerticalConcat(acc, next);
            saved' := saved + [SavedPage(FileName(pageIndex), merged)];
            out' := out + [merged];
            pageIndex' := pageIndex + 1;
            accumulator := None;
          } else {
            accumulator := Some(VerticalConcat(acc, next));
          }
        }
      }
    } else {
      saved' := saved + [SavedPage(FileName(pageIndex), acc)];
      out' := out + [acc];
      pageIndex' := pageIndex + 1;
      accumulator := None;
    }
  }

  lemma RunUnfold(inputs: seq<Option<Page>>, i: nat, acc: Option<Page>)
    requires AllDecodable(inputs) && i <= |inputs| && AccOk(acc)
    requires i < |inputs| || acc.Some?
    ensures var r := Step(inputs, i, acc);
      Run(inputs, i, acc) == r.emitted + Run(inputs, r.next, r.acc)
  {
  }

  /** Closing one turn of the loop: if the turn saved what `Step` emits and
      moved to `Step`'s state, the loop invariant is kept. */
  lemma TurnDone(inputs: seq<Option<Page>>, i0: nat, acc0: Option<Page>, out0: seq<Page>,
                 out: seq<Page>, i: nat, acc: Option<Page>)
    requires AllDecodable(inputs) && i0 <= |inputs| && AccOk(acc0)
    requires i0 < |inputs| || acc0.Some?
    requires out0 + Run(inputs, i0, acc0) == Recompose(inputs)
    requires var r := Step(inputs, i0, acc0); out == out0 + r.emitted && i == r.next && acc == r.acc
    ensures i <= |inputs| && AccOk(acc)
    ensures out + Run(inputs, i, acc) == Recompose(inputs)
  {
    var r := Step(inputs, i0, acc0);
    RunUnfold(inputs, i0, acc0);
    AppendAssoc(out0, r.emitted, Run(inputs, r.next, r.acc));
  }
}
