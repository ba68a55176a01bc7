/** The chapter-folder classifier `parse_chapter_info` of `merge_manga.py`,
    with the regular-expression searches it relies on written out, and the
    order of its sort keys. Text is ASCII: `str.lower`, `\s`
    and `\d` are modelled on their ASCII members. */
module Chapters {

  import opened Wrappers
  import opened Decimal

  // ---------------------------------------------------------------- text

  function LowerChar(c: char): char {
    if 'A' <= c <= 'Z' then (c as int + 32) as char else c
  }

  /** No upper-case ASCII letter occurs in `s`. */
  predicate NoUpper(s: string) {
    forall k :: 0 <= k < |s| ==> !('A' <= s[k] <= 'Z')
  }

  /** `str.lower` on ASCII letters: the result has no upper-case letter,
      and text without one is left as it is. */
  function Lower(s: string): (r: string)
    ensures |r| == |s| && NoUpper(r)
    ensures NoUpper(s) ==> r == s
  {
    seq(|s|, k requires 0 <= k < |s| => LowerChar(s[k]))
  }

  /** Each capital becomes its own small letter. */
  lemma LowerAlphabet()
    ensures Lower("ABCDEFGHIJKLMNOPQRSTUVWXYZ") == "abcdefghijklmnopqrstuvwxyz"
  {
  }

  /** Lower-casing twice is lower-casing once. */
  lemma LowerIdempotent(s: string)
    ensures Lower(Lower(s)) == Lower(s)
  {
  }

  /** Lower-casing works character by character, so it distributes over
      concatenation. */
  lemma LowerAppend(a: string, b: string)
    ensures Lower(a + b) == Lower(a) + Lower(b)
  {
    assert forall k :: 0 <= k < |a + b| ==> Lower(a + b)[k] == (Lower(a) + Lower(b))[k];
  }

  /** Only letters change: whitespace, digits and dots are kept where
      they are. */
  lemma LowerKeepsNonLetters(s: string, k: nat)
    requires k < |s|
    ensures IsSpace(Lower(s)[k]) <==> IsSpace(s[k])
    ensures IsDigit(Lower(s)[k]) <==> IsDigit(s[k])
    ensures Lower(s)[k] == '.' <==> s[k] == '.'
  {
  }

  /** The ASCII characters Python counts as whitespace (`str.strip`, `\s`):
      tab, line feed, vertical tab, form feed, carriage return, the four
      separators 0x1c-0x1f, and space. */
  predicate IsSpace(c: char) {
    c == ' ' || 9 <= c as int <= 13 || 28 <= c as int <= 31
  }

  predicate AllSpace(s: string) {
    forall k :: 0 <= k < |s| ==> IsSpace(s[k])
  }

  function TrimStart(s: string): (r: string)
    ensures |r| <= |s| && r == s[|s| - |r|..] && AllSpace(s[..|s| - |r|])
    ensures r == [] || !IsSpace(r[0])
  {
    if s != [] && IsSpace(s[0]) then
      var r := TrimStart(s[1..]);
      assert s[1..][|s| - 1 - |r|..] == s[|s| - |r|..];
      assert forall k :: 1 <= k < |s| - |r| ==> s[k] == s[1..][..|s| - 1 - |r|][k - 1];
      r
    else s
  }

  function TrimEnd(s: string): (r: string)
    ensures |r| <= |s| && r == s[..|r|] && AllSpace(s[|r|..])
    ensures r == [] || !IsSpace(r[|r| - 1])
  {
    if s != [] && IsSpace(s[|s| - 1]) then
      var u := s[..|s| - 1];
      var r := TrimEnd(u);
      assert u[..|r|] == s[..|r|];
      assert s[|r|..] == u[|r|..] + [s[|s| - 1]];
      r
    else s
  }

  /** `str.strip`: the text between the leading and the trailing whitespace. */
  function Strip(s: string): (r: string)
    ensures r == [] || (!IsSpace(r[0]) && !IsSpace(r[|r| - 1]))
  {
    var t := TrimStart(s);
    var r := TrimEnd(t);
    assert r != [] ==> r[0] == t[0];
    r
  }

  /** `r` sits in `s` from `a`, with only whitespace on either side. */
  predicate SpaceAround(s: string, a: nat, r: string) {
    a <= |s| - |r| && r == s[a..a + |r|] && AllSpace(s[..a]) && AllSpace(s[a + |r|..])
  }

  /** What `Strip` removes is whitespace on either side. */
  lemma StripRemovesOnlySpace(s: string)
    ensures exists a :: SpaceAround(s, a, Strip(s))
  {
    var t := TrimStart(s);
    var r := TrimEnd(t);
    assert Strip(s) == r;
    var a := |s| - |t|;
    assert t == s[a..] && AllSpace(s[..a]);
    assert r == t[..|r|] && AllSpace(t[|r|..]);
    SuffixSlices(s, a, |r|);
    assert SpaceAround(s, a, r);
  }

  lemma SuffixSlices(s: string, a: nat, m: nat)
    requires a <= |s| && m <= |s| - a
    ensures s[a..][..m] == s[a..a + m] && s[a..][m..] == s[a + m..]
  {
  }

  function StartsWith(s: string, prefix: string): bool {
    |prefix| <= |s| && s[..|prefix|] == prefix
  }

  /** `w` occurs in `s` at position `p`. */
  function StartsAt(s: string, p: nat, w: string): bool {
    p + |w| <= |s| && s[p..p + |w|] == w
  }

  // ------------------------------------------------ regular-expression pieces

  /** Greedy `\s*` from `j`. */
  function SkipSpaces(s: string, j: nat): (k: nat)
    requires j <= |s|
    ensures j <= k <= |s| && AllSpace(s[j..k]) && (k == |s| || !IsSpace(s[k]))
    decreases |s| - j
  {
    if j < |s| && IsSpace(s[j]) then SkipSpaces(s, j + 1) else j
  }

  /** Greedy `\d*` from `j`. */
  function SkipDigits(s: string, j: nat): (k: nat)
    requires j <= |s|
    ensures j <= k <= |s| && AllDigits(s[j..k]) && (k == |s| || !IsDigit(s[k]))
    decreases |s| - j
  {
    if j < |s| && IsDigit(s[j]) then SkipDigits(s, j + 1) else j
  }

  /** `\.?` from `j`. */
  function OptDot(s: string, j: nat): (k: nat)
    requires j <= |s|
    ensures k <= |s| && (k == j + 1 <==> j < |s| && s[j] == '.') && (k == j || k == j + 1)
  {
    if j < |s| && s[j] == '.' then j + 1 else j
  }

  /** `\d+(\.\d+)?` matched at `j`, read as an exact decimal (what
      `float(...)` of the match stands for). */
  function NumberAt(s: string, j: nat): (m: Option<real>)
    requires j <= |s|
    ensures m.Some? <==> j < |s| && IsDigit(s[j])
  {
    var k := SkipDigits(s, j);
    if k == j then None
    else if k + 1 < |s| && s[k] == '.' && IsDigit(s[k + 1]) then
      var e := SkipDigits(s, k + 1);
      Some(NatValue(s[j..k]) as real + FracValue(s[k + 1..e]))
    else
      Some(NatValue(s[j..k]) as real)
  }

  /** `\d+` matched at `j`, read with `int(...)`. */
  function IntAt(s: string, j: nat): (m: Option<nat>)
    requires j <= |s|
    ensures m.Some? <==> j < |s| && IsDigit(s[j])
  {
    var k := SkipDigits(s, j);
    if k == j then None else Some(NatValue(s[j..k]))
  }

  /** Where `kw` is written at `p`, the next character cannot begin
      `\s*\.?\s*\d`: the text ends, or a character other than whitespace,
      a dot or a digit follows. */
  predicate NoNumberAfter(s: string, p: nat, kw: string) {
    StartsAt(s, p, kw) ==>
      p + |kw| == |s| || (!IsSpace(s[p + |kw|]) && s[p + |kw|] != '.' && !IsDigit(s[p + |kw|]))
  }

  /** `kw` at `p`, whitespace up to `d`, where an optional dot stands,
      whitespace again, and a digit at `j`. */
  predicate KeywordLayout(s: string, p: nat, kw: string, d: nat, j: nat) {
    StartsAt(s, p, kw) && p + |kw| <= d <= j < |s| && IsDigit(s[j])
    && AllSpace(s[p + |kw|..d])
    && (d == j || (s[d] == '.' && AllSpace(s[d + 1..j])))
  }

  /** `kw\s*\.?\s*(\d+(\.\d+)?)` matched at `p`: the number it captures. */
  function KeywordNumberAt(s: string, p: nat, kw: string): (m: Option<real>)
    ensures m.Some? ==> StartsAt(s, p, kw)
    ensures NoNumberAfter(s, p, kw) ==> m.None?
  {
    if StartsAt(s, p, kw) then NumberAt(s, SkipSpaces(s, OptDot(s, SkipSpaces(s, p + |kw|))))
    else None
  }

  /** `side(?:\s*story)?\.?\s*(\d+(\.\d+)?)` matched at `p`; the optional
      group is tried with " story" first, then without. */
  function SideAt(s: string, p: nat): (m: Option<real>)
    ensures m.Some? ==> StartsAt(s, p, "side")
  {
    if !StartsAt(s, p, "side") then None
    else
      var k := SkipSpaces(s, p + 4);
      var withStory := if StartsAt(s, k, "story") then NumberAt(s, SkipSpaces(s, OptDot(s, k + 5))) else None;
      if withStory.Some? then withStory else NumberAt(s, SkipSpaces(s, OptDot(s, p + 4)))
  }

  /** `vol(?:ume)?\.?\s*(\d+)` matched at `p`; "volume" is tried before "vol". */
  function VolumeAt(s: string, p: nat): (m: Option<nat>)
    ensures m.Some? ==> StartsAt(s, p, "vol")
  {
    if !StartsAt(s, p, "vol") then None
    else
      var withUme := if StartsAt(s, p + 3, "ume") then IntAt(s, SkipSpaces(s, OptDot(s, p + 6))) else None;
      if withUme.Some? then withUme else IntAt(s, SkipSpaces(s, OptDot(s, p + 3)))
  }

  /** `(?:chapter|ch|episode)\s*\.?\s*(\d+(\.\d+)?)` matched at `p`; the
      alternatives are tried in that order. */
  function ChapterAt(s: string, p: nat): (m: Option<real>)
    ensures m.Some? ==> StartsAt(s, p, "chapter") || StartsAt(s, p, "ch") || StartsAt(s, p, "episode")
  {
    var a := KeywordNumberAt(s, p, "chapter");
    if a.Some? then a
    else
      var b := KeywordNumberAt(s, p, "ch");
      if b.Some? then b else KeywordNumberAt(s, p, "episode")
  }

  /** The chapter pattern can only match where a 'c' or an 'e' starts a keyword. */
  lemma ChapterAtNeedsKeyword(s: string, q: nat)
    ensures ChapterAt(s, q).Some? ==> q < |s| && (s[q] == 'c' || s[q] == 'e')
  {
    if StartsAt(s, q, "chapter") { assert s[q..q + 7][0] == s[q]; }
    if StartsAt(s, q, "ch") { assert s[q..q + 2][0] == s[q]; }
    if StartsAt(s, q, "episode") { assert s[q..q + 7][0] == s[q]; }
  }

  /** The volume pattern can only match where a 'v' starts "vol". */
  lemma VolumeAtNeedsKeyword(s: string, q: nat)
    ensures VolumeAt(s, q).Some? ==> q < |s| && s[q] == 'v'
  {
    if StartsAt(s, q, "vol") { assert s[q..q + 3][0] == s[q]; }
  }

  /** `re.search`: the match at the leftmost position from `p` to `n`
      where the pattern `f` matches. */
  function Search<T>(n: nat, f: nat -> Option<T>, p: nat): (r: Option<T>)
    requires p <= n + 1
    ensures r.Some? ==> exists q :: p <= q <= n && f(q) == r && forall q' :: p <= q' < q ==> f(q').None?
    ensures r.None? ==> forall q :: p <= q <= n ==> f(q).None?
    decreases n + 1 - p
  {
    if p > n then None
    else if f(p).Some? then f(p)
    else Search(n, f, p + 1)
  }

  /** The search returns the first position that matches. */
  lemma {:induction false} SearchFinds<T>(n: nat, f: nat -> Option<T>, p: nat, q: nat)
    requires p <= q <= n && f(q).Some?
    requires forall q' :: p <= q' < q ==> f(q').None?
    ensures Search(n, f, p) == f(q)
    decreases q - p
  {
    if p < q {
      SearchFinds(n, f, p + 1, q);
    }
  }

  function OrZero(m: Option<real>): real {
    if m.Some? then m.value else 0.0
  }

  // ------------------------------------------------------- the classifier

  /** The sort key `(priority, volume, chapter_number, original_name)`. */
  datatype ChapterKey = ChapterKey(priority: int, volume: nat, chapter: real, name: string)

  /** The name lower-cased and stripped, as the classifier inspects it. */
  function Normal(name: string): string {
    Strip(Lower(name))
  }

  /** One of the prefixes handled before the normal chapters. */
  predicate SpecialPrefix(lower: string) {
    StartsWith(lower, "oneshot") || StartsWith(lower, "epilogue") || StartsWith(lower, "creator's note")
    || StartsWith(lower, "prologue") || StartsWith(lower, "side")
  }

  predicate ChapterPrefix(lower: string) {
    StartsWith(lower, "chapter") || StartsWith(lower, "ch") || StartsWith(lower, "episode")
  }

  function ChapterSearch(lower: string): Option<real> {
    Search(|lower|, q => ChapterAt(lower, q), 0)
  }

  function EpilogueSearch(lower: string): Option<real> {
    Search(|lower|, q => KeywordNumberAt(lower, q, "epilogue"), 0)
  }

  function PrologueSearch(lower: string): Option<real> {
    Search(|lower|, q => KeywordNumberAt(lower, q, "prologue"), 0)
  }

  function SideSearch(lower: string): Option<real> {
    Search(|lower|, q => SideAt(lower, q), 0)
  }

  function VolumeSearch(lower: string): Option<nat> {
    Search(|lower|, q => VolumeAt(lower, q), 0)
  }

  /** `parse_chapter_info`. */
  function ParseChapterInfo(name: string): (key: ChapterKey)
    ensures key.name == name
    ensures key.priority in {1, 3, 4, 5, 6, 10}
    ensures key.priority == 1 <==>
              StartsWith(Normal(name), "oneshot") || (!SpecialPrefix(Normal(name)) && ChapterSearch(Normal(name)).Some?)
    ensures key.priority == 10 <==> !SpecialPrefix(Normal(name)) && ChapterSearch(Normal(name)).None?
    ensures key.volume != 1 ==>
              !SpecialPrefix(Normal(name)) && !ChapterPrefix(Normal(name)) && VolumeSearch(Normal(name)) == Some(key.volume)
    ensures !SpecialPrefix(Normal(name)) && !ChapterPrefix(Normal(name)) && VolumeSearch(Normal(name)).Some? ==>
              key.volume == VolumeSearch(Normal(name)).value
    ensures key.priority == 10 || key.priority == 6 ==> key.chapter == 0.0
    ensures StartsWith(Normal(name), "oneshot") ==> key == ChapterKey(1, 1, 1.0, name)
    ensures key.priority == 4 <==> !StartsWith(Normal(name), "oneshot") && StartsWith(Normal(name), "epilogue")
    ensures key.priority == 6 <==>
              !StartsWith(Normal(name), "oneshot") && !StartsWith(Normal(name), "epilogue")
              && StartsWith(Normal(name), "creator's note")
    ensures key.priority == 3 <==>
              !StartsWith(Normal(name), "oneshot") && !StartsWith(Normal(name), "epilogue")
              && !StartsWith(Normal(name), "creator's note") && StartsWith(Normal(name), "prologue")
    ensures key.priority == 5 <==>
              !StartsWith(Normal(name), "oneshot") && !StartsWith(Normal(name), "epilogue")
              && !StartsWith(Normal(name), "creator's note") && !StartsWith(Normal(name), "prologue")
              && StartsWith(Normal(name), "side")
    ensures key.priority == 4 ==> key.chapter == OrZero(EpilogueSearch(Normal(name)))
    ensures key.priority == 3 ==> key.chapter == OrZero(PrologueSearch(Normal(name)))
    ensures key.priority == 5 ==> key.chapter == OrZero(SideSearch(Normal(name)))
    ensures key.priority in {3, 4, 5, 6} ==> key.volume == 1
    ensures key.priority == 1 && !StartsWith(Normal(name), "oneshot") ==> ChapterSearch(Normal(name)) == Some(key.chapter)
  {
    var lower := Normal(name);
    if StartsWith(lower, "oneshot") then
      ChapterKey(1, 1, 1.0, name)
    else if StartsWith(lower, "epilogue") then
      ChapterKey(4, 1, OrZero(EpilogueSearch(lower)), name)
    else if StartsWith(lower, "creator's note") then
      ChapterKey(6, 1, 0.0, name)
    else if StartsWith(lower, "prologue") then
      ChapterKey(3, 1, OrZero(PrologueSearch(lower)), name)
    else if StartsWith(lower, "side") then
      ChapterKey(5, 1, OrZero(SideSearch(lower)), name)
    else
      var volume :=
        if ChapterPrefix(lower) then 1
        else (var v := VolumeSearch(lower); if v.Some? then v.value else 1);
      var chap := ChapterSearch(lower);
      if chap.Some? then ChapterKey(1, volume, chap.value, name)
      else ChapterKey(10, volume, 0.0, name)
  }

  /** A name in which no chapter keyword is followed by whitespace, a dot
      or a digit (each is followed by a letter, say, or ends the name)
      sorts last, with chapter number 0, unless a special prefix applies. */
  lemma FallbackWithoutChapterNumber(name: string)
    requires !SpecialPrefix(Normal(name))
    requires forall q :: 0 <= q <= |Normal(name)| ==>
               NoNumberAfter(Normal(name), q, "chapter") && NoNumberAfter(Normal(name), q, "ch")
               && NoNumberAfter(Normal(name), q, "episode")
    ensures ParseChapterInfo(name).priority == 10 && ParseChapterInfo(name).chapter == 0.0
  {
    var lower := Normal(name);
    forall q | 0 <= q <= |lower| ensures ChapterAt(lower, q).None? {
      ChapterAtNone(lower, q);
    }
  }

  // ----------------------------------------------------- reading numbers

  lemma SkipDigitsAll(s: string, j: nat)
    requires j <= |s| && AllDigits(s[j..])
    ensures SkipDigits(s, j) == |s|
    decreases |s| - j
  {
    if j < |s| {
      assert IsDigit(s[j..][0]);
      assert s[j + 1..] == s[j..][1..];
      SkipDigitsAll(s, j + 1);
    }
  }

  /** The text after a whole number does not continue it: no digit, and
      no dot followed by a digit. */
  predicate EndsWholeNumber(u: string) {
    u == [] || (!IsDigit(u[0]) && !(u[0] == '.' && |u| > 1 && IsDigit(u[1])))
  }

  /** A number written in decimal is read back, whatever text follows it
      that does not continue it. */
  lemma NumberAtDecimal(s: string, j: nat, n: nat, u: string)
    requires j <= |s| && s[j..] == DecimalString(n) + u && EndsWholeNumber(u)
    ensures NumberAt(s, j) == Some(n as real)
  {
    var d := DecimalString(n);
    var k := j + |d|;
    DecimalLayout(s, j, d, u);
    if u == [] {
      SkipDigitsAll(s, j);
      assert s[j..|s|] == d;
    } else {
      SkipDigitsTo(s, j, k);
    }
    NatValueOfDecimalString(n);
  }

  /** Digits, a dot and digits ending at `e`, where no digit follows, are
      read as integer part plus fraction. */
  lemma NumberAtWithFraction(s: string, j: nat, k: nat, e: nat)
    requires j < k && k + 1 < e <= |s| && AllDigits(s[j..k]) && s[k] == '.' && AllDigits(s[k + 1..e])
    requires e == |s| || !IsDigit(s[e])
    ensures NumberAt(s, j) == Some(NatValue(s[j..k]) as real + FracValue(s[k + 1..e]))
  {
    SkipDigitsTo(s, j, k);
    assert IsDigit(s[k + 1..e][0]);
    if e == |s| {
      assert s[k + 1..] == s[k + 1..e];
      SkipDigitsAll(s, k + 1);
    } else {
      SkipDigitsTo(s, k + 1, e);
    }
  }

  /** A number with a fractional part is read back as its exact value,
      whatever text without a leading digit follows it. */
  lemma NumberAtFraction(s: string, j: nat, n: nat, f: string, u: string)
    requires j <= |s| && s[j..] == DecimalString(n) + "." + f + u && f != [] && AllDigits(f)
    requires u == [] || !IsDigit(u[0])
    ensures NumberAt(s, j) == Some(n as real + FracValue(f))
  {
    var d := DecimalString(n);
    var k, e := j + |d|, j + |d| + 1 + |f|;
    FractionLayout(s, j, d, f, u);
    assert s[j..k] == d && s[k + 1..e] == f;
    assert e == |s| || !IsDigit(s[e]);
    NumberAtWithFraction(s, j, k, e);
    NatValueOfDecimalString(n);
    assert NatValue(s[j..k]) == n;
  }

  /** Where `d` followed by `u` sits in `s` from `j`. */
  lemma DecimalLayout(s: string, j: nat, d: string, u: string)
    requires j <= |s| && s[j..] == d + u
    ensures j + |d| <= |s| && s[j..j + |d|] == d
    ensures u == [] ==> j + |d| == |s| && s[j..] == d
    ensures u != [] ==> s[j + |d|] == u[0]
    ensures |u| > 1 ==> s[j + |d| + 1] == u[1]
  {
    SuffixSlices(s, j, |d|);
    assert (d + u)[..|d|] == d;
    if u != [] { assert s[j + |d|] == s[j..][|d|]; }
    if |u| > 1 { assert s[j + |d| + 1] == s[j..][|d| + 1]; }
  }

  /** Where the parts of "d.f" followed by `u` sit in `s` from `j`. */
  lemma FractionLayout(s: string, j: nat, d: string, f: string, u: string)
    requires j <= |s| && s[j..] == d + "." + f + u
    ensures j + |d| + 1 + |f| <= |s|
    ensures s[j..j + |d|] == d && s[j + |d|] == '.' && s[j + |d| + 1..j + |d| + 1 + |f|] == f
    ensures u == [] ==> j + |d| + 1 + |f| == |s|
    ensures u != [] ==> s[j + |d| + 1 + |f|] == u[0]
  {
    var w := s[j..];
    assert w[..|d|] == d;
    assert w[|d| + 1..|d| + 1 + |f|] == f;
    assert s[j..j + |d|] == w[..|d|];
    assert s[j + |d| + 1..j + |d| + 1 + |f|] == w[|d| + 1..|d| + 1 + |f|];
  }

  /** `\d+` reads back a whole number, whatever non-digit text follows. */
  lemma IntAtDecimal(s: string, j: nat, n: nat, u: string)
    requires j <= |s| && s[j..] == DecimalString(n) + u && (u == [] || !IsDigit(u[0]))
    ensures IntAt(s, j) == Some(n)
  {
    var d := DecimalString(n);
    var k := j + |d|;
    DecimalLayout(s, j, d, u);
    if u == [] {
      SkipDigitsAll(s, j);
      assert s[j..|s|] == d;
    } else {
      SkipDigitsTo(s, j, k);
    }
    NatValueOfDecimalString(n);
  }

  lemma SkipSpacesTo(s: string, j: nat, k: nat)
    requires j <= k < |s| && AllSpace(s[j..k]) && !IsSpace(s[k])
    ensures SkipSpaces(s, j) == k
    decreases k - j
  {
    if j < k {
      assert IsSpace(s[j..k][0]);
      assert s[j + 1..k] == s[j..k][1..];
      SkipSpacesTo(s, j + 1, k);
    }
  }

  /** A keyword, then whitespace, an optional dot and whitespace, then a
      digit at `j`: the keyword pattern captures the number read at `j`. */
  lemma KeywordThenNumber(s: string, p: nat, kw: string, d: nat, j: nat)
    requires KeywordLayout(s, p, kw, d, j)
    ensures KeywordNumberAt(s, p, kw) == NumberAt(s, j)
  {
    SkipSpacesTo(s, p + |kw|, d);
    if d < j {
      assert s[d] == '.' && OptDot(s, d) == d + 1;
      SkipSpacesTo(s, d + 1, j);
    } else {
      assert OptDot(s, j) == j;
      SkipSpacesTo(s, j, j);
    }
  }

  /** The keyword pattern matches at `p` exactly when the keyword is
      followed by whitespace, an optional dot, whitespace and a digit. */
  lemma KeywordNumberIff(s: string, p: nat, kw: string)
    ensures KeywordNumberAt(s, p, kw).Some? <==> exists d, j :: KeywordLayout(s, p, kw, d, j)
  {
    if KeywordNumberAt(s, p, kw).Some? {
      var d := SkipSpaces(s, p + |kw|);
      var j := SkipSpaces(s, OptDot(s, d));
      if OptDot(s, d) == d {
        assert j == d;
      }
      assert KeywordLayout(s, p, kw, d, j);
    }
    if exists d, j :: KeywordLayout(s, p, kw, d, j) {
      var d, j :| KeywordLayout(s, p, kw, d, j);
      KeywordThenNumber(s, p, kw, d, j);
    }
  }

  /** "chapter" is tried first: when it is followed by a number, that
      number is the chapter pattern's capture. */
  lemma ChapterKeywordNumber(s: string, p: nat, d: nat, j: nat)
    requires KeywordLayout(s, p, "chapter", d, j)
    ensures ChapterAt(s, p) == NumberAt(s, j)
  {
    KeywordThenNumber(s, p, "chapter", d, j);
  }

  /** No chapter keyword at `q` is followed by something that can begin
      its number: the chapter pattern does not match there. */
  lemma ChapterAtNone(s: string, q: nat)
    requires NoNumberAfter(s, q, "chapter") && NoNumberAfter(s, q, "ch") && NoNumberAfter(s, q, "episode")
    ensures ChapterAt(s, q).None?
  {
  }

  /** From `a`: whitespace, or a dot and then whitespace, and a digit at
      `j`; what `\.?\s*` leaves before the number. */
  predicate DotThenDigitAt(s: string, a: nat, j: nat) {
    a <= j < |s| && IsDigit(s[j])
    && (AllSpace(s[a..j]) || (a < j && s[a] == '.' && AllSpace(s[a + 1..j])))
  }

  lemma DotThenDigitSkip(s: string, a: nat, j: nat)
    requires DotThenDigitAt(s, a, j)
    ensures SkipSpaces(s, OptDot(s, a)) == j
  {
    if s[a] == '.' {
      assert !AllSpace(s[a..j]) by { assert s[a..j][0] == '.'; }
      SkipSpacesTo(s, a + 1, j);
    } else {
      SkipSpacesTo(s, a, j);
    }
  }

  /** "vol" or "volume", an optional dot, whitespace and a digit at `j`:
      the volume pattern captures the whole number that starts there. */
  lemma VolumeThenNumber(s: string, p: nat, a: nat, j: nat)
    requires (a == p + 3 && StartsAt(s, p, "vol")) || (a == p + 6 && StartsAt(s, p, "volume"))
    requires DotThenDigitAt(s, a, j)
    ensures VolumeAt(s, p) == IntAt(s, j)
  {
    DotThenDigitSkip(s, a, j);
    if a == p + 6 {
      assert s[p..p + 3] == s[p..p + 6][..3];
      assert s[p + 3..p + 6] == s[p..p + 6][3..];
    } else {
      assert s[a] != 'u' by {
        if a < j { assert s[a] == s[a..j][0]; }
      }
      assert !StartsAt(s, p + 3, "ume");
    }
  }

  /** "side", an optional dot, whitespace and a digit at `j`: the side
      pattern captures the number that starts there. */
  lemma SideThenNumber(s: string, p: nat, j: nat)
    requires StartsAt(s, p, "side") && DotThenDigitAt(s, p + 4, j)
    ensures SideAt(s, p) == NumberAt(s, j)
  {
    var k := SkipSpaces(s, p + 4);
    if s[p + 4] == '.' {
      assert k == p + 4;
    } else {
      SkipSpacesTo(s, p + 4, j);
    }
    assert s[k] != 's';
    assert !StartsAt(s, k, "story");
    DotThenDigitSkip(s, p + 4, j);
  }

  /** "side", whitespace, "story", an optional dot, whitespace and a digit
      at `j`: the side pattern captures the number that starts there. */
  lemma SideStoryThenNumber(s: string, p: nat, k: nat, j: nat)
    requires StartsAt(s, p, "side") && StartsAt(s, k, "story") && p + 4 <= k && AllSpace(s[p + 4..k])
    requires DotThenDigitAt(s, k + 5, j)
    ensures SideAt(s, p) == NumberAt(s, j)
  {
    assert s[k] == s[k..k + 5][0];
    SkipSpacesTo(s, p + 4, k);
    DotThenDigitSkip(s, k + 5, j);
  }

  /** "ch" is the second alternative: "ch" followed by a number cannot
      also be the start of "chapter", so its number is the capture. */
  lemma ChKeywordNumber(s: string, p: nat, d: nat, j: nat)
    requires KeywordLayout(s, p, "ch", d, j)
    ensures ChapterAt(s, p) == NumberAt(s, j)
  {
    if d > p + 2 {
      assert s[p + 2] == s[p + 2..d][0];
    }
    assert s[p + 2] != 'a';
    if p + 7 <= |s| {
      assert s[p..p + 7][2] == s[p + 2];
    }
    KeywordThenNumber(s, p, "ch", d, j);
  }

  /** "episode" is the third alternative: it starts with 'e', so neither
      "chapter" nor "ch" matches there, and its number is the capture. */
  lemma EpisodeKeywordNumber(s: string, p: nat, d: nat, j: nat)
    requires KeywordLayout(s, p, "episode", d, j)
    ensures ChapterAt(s, p) == NumberAt(s, j)
  {
    assert s[p] == s[p..p + 7][0] == 'e';
    assert !StartsAt(s, p, "chapter") && !StartsAt(s, p, "ch");
    KeywordThenNumber(s, p, "episode", d, j);
  }

  lemma SkipDigitsTo(s: string, j: nat, k: nat)
    requires j <= k < |s| && AllDigits(s[j..k]) && !IsDigit(s[k])
    ensures SkipDigits(s, j) == k
    decreases k - j
  {
    if j < k {
      assert IsDigit(s[j..k][0]);
      assert s[j + 1..k] == s[j..k][1..];
      SkipDigitsTo(s, j + 1, k);
    }
  }

  // ----------------------------------------------- names of plain chapters

  lemma NoUpperAppend(a: string, b: string)
    requires NoUpper(a) && NoUpper(b)
    ensures NoUpper(a + b)
  {
    forall k | 0 <= k < |a + b| ensures !('A' <= (a + b)[k] <= 'Z') {
      if k >= |a| { assert (a + b)[k] == b[k - |a|]; }
    }
  }

  lemma NoUpperDigits(s: string)
    requires AllDigits(s)
    ensures NoUpper(s)
  {
  }

  /** A name that is already lower case and has no surrounding whitespace
      is its own normal form. */
  lemma NormalOfPlain(name: string)
    requires name != [] && !IsSpace(name[0]) && !IsSpace(name[|name| - 1])
    requires NoUpper(name)
    ensures Normal(name) == name
  {
    assert Lower(name) == name;
  }

  lemma NormalOfCapitalised(name: string, rest: string)
    requires name == ['C'] + rest && rest != [] && !IsSpace(rest[|rest| - 1])
    requires NoUpper(rest)
    ensures Normal(name) == ['c'] + rest
  {
    assert Lower(name) == ['c'] + rest;
    NoUpperAppend(['c'], rest);
    NormalOfPlain(['c'] + rest);
  }

  /** When the classifier sees an ordinary chapter name with a number,
      the volume defaults to 1. */
  lemma ParsePlainChapter(name: string, v: real)
    requires !SpecialPrefix(Normal(name)) && ChapterPrefix(Normal(name))
    requires ChapterAt(Normal(name), 0) == Some(v)
    ensures ParseChapterInfo(name) == ChapterKey(1, 1, v, name)
  {
  }

  /** The lower-case text "chapter " followed by a digit: no special
      prefix, and the chapter pattern matches at its start. */
  lemma ChapterWordAhead(lower: string, rest: string)
    requires lower == "chapter " + rest && rest != [] && IsDigit(rest[0])
    ensures !SpecialPrefix(lower) && ChapterPrefix(lower)
    ensures ChapterAt(lower, 0) == NumberAt(lower, 8)
  {
    assert lower[0] == 'c' && lower[1] == 'h' && lower[7] == ' ' && lower[8] == rest[0];
    assert StartsWith(lower, "chapter") by { assert lower[..7] == "chapter"; }
    assert !StartsWith(lower, "oneshot");
    assert !StartsWith(lower, "epilogue");
    assert !StartsWith(lower, "creator's note") by {
      if |lower| >= 14 { assert lower[..14][1] == 'h'; }
    }
    assert !StartsWith(lower, "prologue");
    assert !StartsWith(lower, "side");
    assert StartsAt(lower, 0, "chapter") by { assert lower[0..7] == "chapter"; }
    assert SkipSpaces(lower, 7) == 8;
  }

  /** "Chapter " followed by lower-case text that starts with a digit:
      an ordinary chapter of volume 1 with the number read there. */
  lemma ChapterNameOf(rest: string, v: real)
    requires rest != [] && IsDigit(rest[0]) && !IsSpace(rest[|rest| - 1])
    requires NoUpper(rest)
    requires NumberAt("chapter " + rest, 8) == Some(v)
    ensures ParseChapterInfo("Chapter " + rest) == ChapterKey(1, 1, v, "Chapter " + rest)
  {
    var tail := "hapter " + rest;
    assert "Chapter " + rest == ['C'] + tail;
    assert "chapter " + rest == ['c'] + tail;
    NoUpperAppend("hapter ", rest);
    NormalOfCapitalised("Chapter " + rest, tail);
    ChapterWordAhead("chapter " + rest, rest);
    ParsePlainChapter("Chapter " + rest, v);
  }

  /** "Chapter N" is an ordinary chapter of volume 1 numbered N. */
  lemma ChapterNameRoundTrip(n: nat)
    ensures ParseChapterInfo("Chapter " + DecimalString(n)) == ChapterKey(1, 1, n as real, "Chapter " + DecimalString(n))
  {
    var d := DecimalString(n);
    assert ("chapter " + d)[8..] == d + "";
    NumberAtDecimal("chapter " + d, 8, n, "");
    NoUpperDigits(d);
    ChapterNameOf(d, n as real);
  }

  /** Text with no whitespace at either end is its own `str.strip`. */
  lemma StripUnpadded(s: string)
    requires s != [] && !IsSpace(s[0]) && !IsSpace(s[|s| - 1])
    ensures Strip(s) == s
  {
    assert TrimStart(s) == s;
    assert TrimEnd(s) == s;
  }

  /** A name whose lower-cased form has no whitespace at either end is
      inspected as that form. */
  lemma NormalOfUnpadded(name: string, lower: string)
    requires Lower(name) == lower && lower != [] && !IsSpace(lower[0]) && !IsSpace(lower[|lower| - 1])
    ensures Normal(name) == lower
  {
    StripUnpadded(lower);
  }

  /** How the classifier sees "Chapter " + digits + title: lower-cased
      and with nothing to strip. */
  lemma TitledChapterNormal(d: string, title: string)
    requires d != [] && AllDigits(d) && (title == [] || !IsSpace(title[|title| - 1]))
    ensures Normal("Chapter " + (d + title)) == "chapter " + (d + Lower(title))
  {
    var lt := Lower(title);
    var lower := "chapter " + (d + lt);
    LowerAppend("Chapter ", d + title);
    LowerAppend(d, title);
    NoUpperDigits(d);
    assert Lower("Chapter ") == "chapter ";
    assert Lower("Chapter " + (d + title)) == lower;
    if title != [] {
      LowerKeepsNonLetters(title, |title| - 1);
      assert lower[|lower| - 1] == lt[|lt| - 1];
    } else {
      assert lower[|lower| - 1] == d[|d| - 1];
    }
    NormalOfUnpadded("Chapter " + (d + title), lower);
  }

  /** The lower-cased text of a titled chapter name has no special
      prefix, and the chapter pattern at its start captures N. */
  lemma TitledChapterText(n: nat, title: string)
    requires EndsWholeNumber(title)
    ensures var lower := "chapter " + (DecimalString(n) + Lower(title));
      !SpecialPrefix(lower) && ChapterPrefix(lower) && ChapterAt(lower, 0) == Some(n as real)
  {
    var d := DecimalString(n);
    var lt := Lower(title);
    var lower := "chapter " + (d + lt);
    assert EndsWholeNumber(lt) by {
      if title != [] {
        LowerKeepsNonLetters(title, 0);
        if |title| > 1 { LowerKeepsNonLetters(title, 1); }
      }
    }
    assert (d + lt)[0] == d[0];
    ChapterWordAhead(lower, d + lt);
    assert lower[8..] == d + lt;
    NumberAtDecimal(lower, 8, n, lt);
  }

  /** "Chapter N" followed by a title that does not continue the number
      ("Chapter 12 - The Storm") is an ordinary chapter of volume 1
      numbered N, whatever the letters of the title. */
  lemma TitledChapterName(n: nat, title: string)
    requires EndsWholeNumber(title) && (title == [] || !IsSpace(title[|title| - 1]))
    ensures ParseChapterInfo("Chapter " + (DecimalString(n) + title))
         == ChapterKey(1, 1, n as real, "Chapter " + (DecimalString(n) + title))
  {
    var d := DecimalString(n);
    var name := "Chapter " + (d + title);
    TitledChapterNormal(d, title);
    TitledChapterText(n, title);
    ParsePlainChapter(name, n as real);
  }

  /** "N.F" satisfies what `ChapterNameOf` asks of the text after "Chapter ". */
  lemma FractionalNumberText(n: nat, f: string)
    requires f != [] && AllDigits(f)
    ensures var rest := DecimalString(n) + "." + f;
      rest != [] && IsDigit(rest[0]) && !IsSpace(rest[|rest| - 1]) && NoUpper(rest)
      && NumberAt("chapter " + rest, 8) == Some(n as real + FracValue(f))
  {
    var d := DecimalString(n);
    var rest := d + "." + f;
    assert ("chapter " + rest)[8..] == rest + "";
    NumberAtFraction("chapter " + rest, 8, n, f, "");
    assert rest[0] == d[0] && rest[|rest| - 1] == f[|f| - 1];
    NoUpperDigits(d);
    NoUpperDigits(f);
    NoUpperAppend(d, ".");
    NoUpperAppend(d + ".", f);
  }

  /** "Chapter N.F" keeps its fractional part. */
  lemma FractionalChapterName(n: nat, f: string)
    requires f != [] && AllDigits(f)
    ensures ParseChapterInfo("Chapter " + (DecimalString(n) + "." + f))
         == ChapterKey(1, 1, n as real + FracValue(f), "Chapter " + (DecimalString(n) + "." + f))
  {
    FractionalNumberText(n, f);
    ChapterNameOf(DecimalString(n) + "." + f, n as real + FracValue(f));
  }

  // ----------------------------------------------------- the sort order

  /** Python's `<` on strings: lexicographic by code point. */
  predicate StrLess(a: string, b: string)
    decreases |a|
  {
    if a == [] then b != []
    else b != [] && (a[0] < b[0] || (a[0] == b[0] && StrLess(a[1..], b[1..])))
  }

  lemma {:induction false} StrLessTrichotomy(a: string, b: string)
    ensures a == b || StrLess(a, b) || StrLess(b, a)
    ensures !(StrLess(a, b) && StrLess(b, a))
    ensures !StrLess(a, a)
    decreases |a|
  {
    if a != [] && b != [] {
      StrLessTrichotomy(a[1..], b[1..]);
      if a[0] == b[0] && a[1..] == b[1..] {
        assert a == [a[0]] + a[1..] && b == [b[0]] + b[1..];
      }
    }
    if a != [] {
      StrLessTrichotomy(a[1..], a[1..]);
    }
  }

  lemma {:induction false} StrLessTransitive(a: string, b: string, c: string)
    requires StrLess(a, b) && StrLess(b, c)
    ensures StrLess(a, c)
    decreases |a|
  {
    if a != [] && a[0] == b[0] && b[0] == c[0] {
      StrLessTransitive(a[1..], b[1..], c[1..]);
    }
  }

  /** Python's `<` on the tuple `(priority, volume, chapter_number, name)`. */
  predicate KeyLess(x: ChapterKey, y: ChapterKey) {
    x.priority < y.priority
    || (x.priority == y.priority
        && (x.volume < y.volume
            || (x.volume == y.volume
                && (x.chapter < y.chapter
                    || (x.chapter == y.chapter && StrLess(x.name, y.name))))))
  }

  lemma KeyLessTransitive(x: ChapterKey, y: ChapterKey, z: ChapterKey)
    requires KeyLess(x, y) && KeyLess(y, z)
    ensures KeyLess(x, z)
  {
    if x.priority == y.priority == z.priority && x.volume == y.volume == z.volume
       && x.chapter == y.chapter == z.chapter {
      StrLessTransitive(x.name, y.name, z.name);
    }
  }

  /** Any two distinct chapter folders are ordered one way and not the
      other, so sorting by the key leaves no tie to the sort's stability. */
  lemma FoldersStrictlyOrdered(a: string, b: string)
    requires a != b
    ensures KeyLess(ParseChapterInfo(a), ParseChapterInfo(b)) != KeyLess(ParseChapterInfo(b), ParseChapterInfo(a))
  {
    StrLessTrichotomy(a, b);
  }

  /** A folder never sorts before itself. */
  lemma KeyLessIrreflexive(x: ChapterKey)
    ensures !KeyLess(x, x)
  {
    StrLessTrichotomy(x.name, x.name);
  }
}
