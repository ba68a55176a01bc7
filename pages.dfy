/** Pages and the image helpers of the recomposition engine: width
    comparison, the 2.5 target height, vertical concatenation, top
    cropping and splitting into fixed-height slices. */
module Pages {

  newtype Channel = x: int | 0 <= x < 256

  /** One RGB pixel (every page is converted to RGB when it is opened). */
  datatype Pixel = Rgb(r: Channel, g: Channel, b: Channel)

  /** A raster page: its width and its rows of pixels, top row first.
      Its height is the number of rows. */
  datatype Page = Page(width: nat, rows: seq<seq<Pixel>>) {

    function Height(): nat {
      |rows|
    }
  }

  /** Every row holds exactly `width` pixels. */
  predicate Rectangular(p: Page) {
    forall k :: 0 <= k < |p.rows| ==> |p.rows[k]| == p.width
  }

  /** A page as the decoder hands it over: rectangular and at least one
      pixel wide. */
  predicate Decodable(p: Page) {
    p.width >= 1 && Rectangular(p)
  }

  /** Pixel tolerance for width differences between merged pages. */
  const Tolerance: int := 10

  function Min(a: int, b: int): int {
    if a <= b then a else b
  }

  function Abs(x: int): nat {
    if x < 0 then -x else x
  }

  /** `similar_width`: the widths differ by at most `tolerance` pixels. */
  function SimilarWidth(w1: int, w2: int, tolerance: int): (b: bool)
    ensures b <==> w2 - tolerance <= w1 <= w2 + tolerance
  {
    Abs(w1 - w2) <= tolerance
  }

  lemma SimilarWidthSymmetric(w1: int, w2: int, tolerance: int)
    ensures SimilarWidth(w1, w2, tolerance) == SimilarWidth(w2, w1, tolerance)
  {
  }

  /** `int(round(width * 2.5))`: the product is exact in binary floating
      point and Python rounds a tie to the even neighbour, so the result is
      5w/2 for even w and the even one of the two integers next to 5w/2 for
      odd w. */
  function TargetHeight(w: nat): (t: nat)
    ensures -1 <= 2 * t - 5 * w <= 1
    ensures 2 * t != 5 * w ==> t % 2 == 0
    ensures w >= 1 ==> t >= 2 * w
  {
    var q := 5 * w / 2;
    if (5 * w) % 2 == 0 then q
    else if q % 2 == 0 then q
    else q + 1
  }

  /** Round half to even has exactly one answer, so the contract of
      `TargetHeight` determines it. */
  lemma TargetHeightUnique(w: nat, t: int)
    requires -1 <= 2 * t - 5 * w <= 1
    requires 2 * t != 5 * w ==> t % 2 == 0
    ensures t == TargetHeight(w)
  {
    var m := 5 * w;
    var q := m / 2;
    assert m == 2 * q + m % 2;
    if m % 2 == 0 {
      assert t == q;
    } else {
      assert t == q || t == q + 1;
    }
  }

  lemma TargetHeightExamples()
    ensures TargetHeight(1) == 2 && TargetHeight(3) == 8 && TargetHeight(1000) == 2500
  {
  }

  /** The first `w` pixels of every row. */
  function Trim(rows: seq<seq<Pixel>>, w: nat): (r: seq<seq<Pixel>>)
    requires forall k :: 0 <= k < |rows| ==> w <= |rows[k]|
    ensures |r| == |rows|
    ensures forall k :: 0 <= k < |r| ==> r[k] == rows[k][..w]
  {
    seq(|rows|, k requires 0 <= k < |rows| => rows[k][..w])
  }

  /** `vertical_concat`: `a` on top of `b`, both cut to the smaller width. */
  function VerticalConcat(a: Page, b: Page): (r: Page)
    requires Rectangular(a) && Rectangular(b)
    ensures Rectangular(r)
    ensures r.width == Min(a.width, b.width)
    ensures r.Height() == a.Height() + b.Height()
    ensures forall k :: 0 <= k < a.Height() ==> r.rows[k] == a.rows[k][..r.width]
    ensures forall k :: 0 <= k < b.Height() ==> r.rows[a.Height() + k] == b.rows[k][..r.width]
  {
    var w := Min(a.width, b.width);
    Page(w, Trim(a.rows, w) + Trim(b.rows, w))
  }

  /** With equal widths nothing is cut: the rows of `a` followed by those of `b`. */
  lemma VerticalConcatSameWidth(a: Page, b: Page)
    requires Rectangular(a) && Rectangular(b)
    ensures a.width == b.width ==> VerticalConcat(a, b) == Page(a.width, a.rows + b.rows)
  {
    var r := VerticalConcat(a, b);
    assert a.width == b.width ==> r.rows == a.rows + b.rows by {
      forall k | 0 <= k < |r.rows| && a.width == b.width
        ensures r.rows[k] == (a.rows + b.rows)[k]
      {
        if k >= a.Height() {
          assert r.rows[a.Height() + (k - a.Height())] == b.rows[k - a.Height()][..r.width];
        }
      }
    }
  }

  /** Pillow's `crop((0, top, width, bottom))` inside the page. */
  function Crop(p: Page, top: nat, bottom: nat): (r: Page)
    requires top <= bottom <= p.Height()
    ensures r.width == p.width && r.Height() == bottom - top
    ensures Rectangular(p) ==> Rectangular(r)
  {
    Page(p.width, p.rows[top..bottom])
  }

  /** `crop_top`: the top `c` rows and what is left below them. */
  function CropTop(p: Page, c: nat): (r: (Page, Page))
    requires c <= p.Height()
    ensures r.0.width == p.width && r.1.width == p.width
    ensures r.0.Height() == c && r.1.Height() == p.Height() - c
    ensures r.0.rows + r.1.rows == p.rows
  {
    assert p.rows[..c] + p.rows[c..] == p.rows;
    (Crop(p, 0, c), Crop(p, c, p.Height()))
  }

  /** Row by row, `xs` is `ys` with every row possibly cut short on the
      right: what cutting pages to a smaller width does to their content. */
  ghost predicate PrefixRows(xs: seq<seq<Pixel>>, ys: seq<seq<Pixel>>) {
    |xs| == |ys| && forall k :: 0 <= k < |xs| ==> xs[k] <= ys[k]
  }

  lemma PrefixRowsConcat(x1: seq<seq<Pixel>>, y1: seq<seq<Pixel>>, x2: seq<seq<Pixel>>, y2: seq<seq<Pixel>>)
    requires PrefixRows(x1, y1) && PrefixRows(x2, y2)
    ensures PrefixRows(x1 + x2, y1 + y2)
  {
    forall k | 0 <= k < |x1| + |x2|
      ensures (x1 + x2)[k] <= (y1 + y2)[k]
    {
      if k >= |x1| {
        assert (x1 + x2)[k] == x2[k - |x1|] && (y1 + y2)[k] == y2[k - |x1|];
      }
    }
  }

  lemma PrefixRowsTransitive(xs: seq<seq<Pixel>>, ys: seq<seq<Pixel>>, zs: seq<seq<Pixel>>)
    requires PrefixRows(xs, ys) && PrefixRows(ys, zs)
    ensures PrefixRows(xs, zs)
  {
    forall k | 0 <= k < |xs|
      ensures xs[k] <= zs[k]
    {
      assert xs[k] <= ys[k] && ys[k] <= zs[k];
    }
  }

  /** Concatenation keeps every row of both pages, in order, cut to the
      common width. */
  lemma VerticalConcatPrefix(a: Page, b: Page)
    requires Rectangular(a) && Rectangular(b)
    ensures PrefixRows(VerticalConcat(a, b).rows, a.rows + b.rows)
  {
    var r := VerticalConcat(a, b);
    forall k | 0 <= k < |r.rows|
      ensures r.rows[k] <= (a.rows + b.rows)[k]
    {
      if k >= a.Height() {
        assert r.rows[a.Height() + (k - a.Height())] == b.rows[k - a.Height()][..r.width];
      }
    }
  }

  /** All rows of a sequence of pages, in order. */
  function Rows(ps: seq<Page>): seq<seq<Pixel>> {
    if ps == [] then [] else ps[0].rows + Rows(ps[1..])
  }

  function SumHeights(ps: seq<Page>): nat {
    if ps == [] then 0 else ps[0].Height() + SumHeights(ps[1..])
  }

  lemma {:induction false} RowsAppend(xs: seq<Page>, ys: seq<Page>)
    ensures Rows(xs + ys) == Rows(xs) + Rows(ys)
  {
    if xs == [] {
      assert xs + ys == ys;
    } else {
      assert (xs + ys)[1..] == xs[1..] + ys;
      RowsAppend(xs[1..], ys);
    }
  }

  /** The total height of some pages is the number of their rows. */
  lemma {:induction false} SumHeightsIsRowCount(ps: seq<Page>)
    ensures SumHeights(ps) == |Rows(ps)|
  {
    if ps != [] {
      SumHeightsIsRowCount(ps[1..]);
    }
  }

  /** The slices `split_image` produces from row `y` on: consecutive
      crops of height `d`, the last one possibly shorter. */
  function SplitFrom(p: Page, d: nat, y: nat): (parts: seq<Page>)
    requires d > 0 && y <= p.Height()
    ensures forall k :: 0 <= k < |parts| ==> parts[k].width == p.width
    ensures Rectangular(p) ==> forall k :: 0 <= k < |parts| ==> Rectangular(parts[k])
    ensures forall k :: 0 <= k < |parts| - 1 ==> parts[k].Height() == d
    ensures parts == [] <==> y == p.Height()
    ensures parts != [] ==> 0 < parts[|parts| - 1].Height() <= d
    decreases p.Height() - y
  {
    if y < p.Height() then
      var h := Min(d, p.Height() - y);
      [Crop(p, y, y + h)] + SplitFrom(p, d, y + h)
    else
      []
  }

  lemma MulSucc(m: int, d: int)
    ensures (m + 1) * d == m * d + d
  {
  }

  /** The slices hold the rows from `y` down, in order. */
  lemma {:induction false} SplitFromRows(p: Page, d: nat, y: nat)
    requires d > 0 && y <= p.Height()
    ensures Rows(SplitFrom(p, d, y)) == p.rows[y..]
    decreases p.Height() - y
  {
    if y < p.Height() {
      var h := Min(d, p.Height() - y);
      var rest := SplitFrom(p, d, y + h);
      SplitFromRows(p, d, y + h);
      assert p.rows[y..] == p.rows[y..y + h] + p.rows[y + h..];
      assert ([Crop(p, y, y + h)] + rest)[1..] == rest;
    }
  }

  /** There are ceil((height - y) / d) slices. */
  lemma {:induction false} SplitFromCount(p: Page, d: nat, y: nat)
    requires d > 0 && y < p.Height()
    ensures (|SplitFrom(p, d, y)| - 1) * d < p.Height() - y <= |SplitFrom(p, d, y)| * d
    decreases p.Height() - y
  {
    if y + d < p.Height() {
      SplitFromUnfold(p, d, y);
      SplitFromCount(p, d, y + d);
      var m := |SplitFrom(p, d, y + d)|;
      assert |SplitFrom(p, d, y)| == m + 1;
      MulSucc(m - 1, d);
      MulSucc(m, d);
    } else {
      SplitFromUnfold(p, d, y);
      assert |SplitFrom(p, d, y)| == 1;
    }
  }

  lemma SplitFromUnfold(p: Page, d: nat, y: nat)
    requires d > 0 && y < p.Height()
    ensures SplitFrom(p, d, y)
         == [Crop(p, y, y + Min(d, p.Height() - y))] + SplitFrom(p, d, y + Min(d, p.Height() - y))
  {
  }

  /** `split_image(img, d)`. */
  function Split(p: Page, d: nat): (parts: seq<Page>)
    requires d > 0
    ensures Rows(parts) == p.rows
    ensures SumHeights(parts) == p.Height()
    ensures forall k :: 0 <= k < |parts| ==> parts[k].width == p.width
    ensures Rectangular(p) ==> forall k :: 0 <= k < |parts| ==> Rectangular(parts[k])
    ensures forall k :: 0 <= k < |parts| - 1 ==> parts[k].Height() == d
    ensures parts == [] <==> p.Height() == 0
    ensures parts != [] ==> 0 < parts[|parts| - 1].Height() <= d
    ensures p.Height() > 0 ==> (|parts| - 1) * d < p.Height() <= |parts| * d
  {
    var parts := SplitFrom(p, d, 0);
    SplitFromRows(p, d, 0);
    SumHeightsIsRowCount(parts);
    if p.Height() == 0 then parts
    else
      SplitFromCount(p, d, 0);
      parts
  }

  /** The rows of all slices but the last, then those of the last, are
      the rows of the page. */
  lemma SplitButLast(p: Page, d: nat)
    requires d > 0 && p.Height() > 0
    ensures var parts := Split(p, d);
      Rows(parts[..|parts| - 1]) + parts[|parts| - 1].rows == p.rows
  {
    var parts := Split(p, d);
    var last := parts[|parts| - 1];
    assert parts == parts[..|parts| - 1] + [last];
    RowsAppend(parts[..|parts| - 1], [last]);
    assert Rows([last]) == last.rows;
  }

  /** The loop of `split_image`, walking `y` down the page. */
  method SplitImage(img: Page, desired: nat) returns (parts: seq<Page>)
    requires desired > 0
    ensures parts == Split(img, desired)
  {
    parts := [];
    var total := img.Height();
    var y := 0;
    while y < total
      invariant y <= total
      invariant parts + SplitFrom(img, desired, y) == SplitFrom(img, desired, 0)
    {
      var h := Min(desired, total - y);
      var part := Crop(img, y, y + h);
      SplitTurn(img, desired, y, parts);
      parts := parts + [part];
      y := y + h;
    }
    SplitDone(img, desired, parts);
  }

  /** One turn of the loop of `split_image` keeps its invariant. */
  lemma SplitTurn(p: Page, d: nat, y: nat, parts: seq<Page>)
    requires d > 0 && y < p.Height()
    requires parts + SplitFrom(p, d, y) == SplitFrom(p, d, 0)
    ensures var h := Min(d, p.Height() - y);
      parts + [Crop(p, y, y + h)] + SplitFrom(p, d, y + h) == SplitFrom(p, d, 0)
  {
    var h := Min(d, p.Height() - y);
    SplitFromUnfold(p, d, y);
    assert parts + [Crop(p, y, y + h)] + SplitFrom(p, d, y + h) == parts + ([Crop(p, y, y + h)] + SplitFrom(p, d, y + h));
  }

  lemma SplitDone(p: Page, d: nat, parts: seq<Page>)
    requires d > 0 && parts + SplitFrom(p, d, p.Height()) == SplitFrom(p, d, 0)
    ensures parts == Split(p, d)
  {
    assert SplitFrom(p, d, p.Height()) == [];
  }
}
