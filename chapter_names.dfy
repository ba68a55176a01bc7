/** The keys of whole families of folder names, for every number in them:
    "Prologue N", "Epilogue N", "Episode N", "Ch. N", "Side N",
    "Side Story N", and a volume before a chapter ("Vol. N Chapter M",
    "Volume N Chapter M"). */
module ChapterNames {

  import opened Wrappers
  import opened Decimal
  import opened Chapters

  // -------------------------------------------------- the words, lower-cased

  // The words the names below begin with, lower-cased one at a time, and
  // each word followed by a number as the classifier sees it.

  lemma LowerPrologue() ensures Lower("Prologue ") == "prologue " {}
  lemma LowerEpilogue() ensures Lower("Epilogue ") == "epilogue " {}
  lemma LowerEpisode() ensures Lower("Episode ") == "episode " {}
  lemma LowerCh() ensures Lower("Ch. ") == "ch. " {}
  lemma LowerSide() ensures Lower("Side ") == "side " {}
  lemma LowerSideStory() ensures Lower("Side Story ") == "side story " {}
  lemma LowerVol() ensures Lower("Vol. ") == "vol. " {}
  lemma LowerVolume() ensures Lower("Volume ") == "volume " {}
  lemma LowerChapterWord() ensures Lower(" Chapter ") == " chapter " {}

  lemma PrologueLower(d: string)
    requires d != [] && AllDigits(d)
    ensures Normal("Prologue " + d) == "prologue " + d
  {
    LowerPrologue();
    NumberedNameNormal("Prologue ", "prologue ", d);
  }

  lemma EpilogueLower(d: string)
    requires d != [] && AllDigits(d)
    ensures Normal("Epilogue " + d) == "epilogue " + d
  {
    LowerEpilogue();
    NumberedNameNormal("Epilogue ", "epilogue ", d);
  }

  lemma EpisodeLower(d: string)
    requires d != [] && AllDigits(d)
    ensures Normal("Episode " + d) == "episode " + d
  {
    LowerEpisode();
    NumberedNameNormal("Episode ", "episode ", d);
  }

  lemma ChDotLower(d: string)
    requires d != [] && AllDigits(d)
    ensures Normal("Ch. " + d) == "ch. " + d
  {
    LowerCh();
    NumberedNameNormal("Ch. ", "ch. ", d);
  }

  lemma SideLower(d: string)
    requires d != [] && AllDigits(d)
    ensures Normal("Side " + d) == "side " + d
  {
    LowerSide();
    NumberedNameNormal("Side ", "side ", d);
  }

  lemma SideStoryLower(d: string)
    requires d != [] && AllDigits(d)
    ensures Normal("Side Story " + d) == "side story " + d
  {
    LowerSideStory();
    NumberedNameNormal("Side Story ", "side story ", d);
  }

  lemma VolLower(dv: string, dm: string)
    requires dv != [] && AllDigits(dv) && dm != [] && AllDigits(dm)
    ensures Normal("Vol. " + (dv + (" Chapter " + dm))) == "vol. " + (dv + (" chapter " + dm))
  {
    LowerVol();
    VolumeChapterNormal("Vol. ", "vol. ", dv, dm);
  }

  lemma VolumeLower(dv: string, dm: string)
    requires dv != [] && AllDigits(dv) && dm != [] && AllDigits(dm)
    ensures Normal("Volume " + (dv + (" Chapter " + dm))) == "volume " + (dv + (" chapter " + dm))
  {
    LowerVolume();
    VolumeChapterNormal("Volume ", "volume ", dv, dm);
  }

  // ------------------------------------------- the classifier's branches

  lemma PlainChapterName(name: string, lower: string, v: real)
    requires Normal(name) == lower && !SpecialPrefix(lower) && ChapterPrefix(lower)
    requires ChapterAt(lower, 0) == Some(v)
    ensures ParseChapterInfo(name) == ChapterKey(1, 1, v, name)
  {
    ParsePlainChapter(name, v);
  }

  lemma ParsePrologue(name: string, v: real)
    requires !StartsWith(Normal(name), "oneshot") && !StartsWith(Normal(name), "epilogue")
    requires !StartsWith(Normal(name), "creator's note") && StartsWith(Normal(name), "prologue")
    requires PrologueSearch(Normal(name)) == Some(v)
    ensures ParseChapterInfo(name) == ChapterKey(3, 1, v, name)
  {
  }

  lemma ParseEpilogue(name: string, v: real)
    requires !StartsWith(Normal(name), "oneshot") && StartsWith(Normal(name), "epilogue")
    requires EpilogueSearch(Normal(name)) == Some(v)
    ensures ParseChapterInfo(name) == ChapterKey(4, 1, v, name)
  {
  }

  lemma ParseSide(name: string, v: real)
    requires !StartsWith(Normal(name), "oneshot") && !StartsWith(Normal(name), "epilogue")
    requires !StartsWith(Normal(name), "creator's note") && !StartsWith(Normal(name), "prologue")
    requires StartsWith(Normal(name), "side") && SideSearch(Normal(name)) == Some(v)
    ensures ParseChapterInfo(name) == ChapterKey(5, 1, v, name)
  {
  }

  lemma ParseVolumeChapter(name: string, v: nat, c: real)
    requires !SpecialPrefix(Normal(name)) && !ChapterPrefix(Normal(name))
    requires VolumeSearch(Normal(name)) == Some(v) && ChapterSearch(Normal(name)) == Some(c)
    ensures ParseChapterInfo(name) == ChapterKey(1, v, c, name)
  {
  }

  // ------------------------------------------------------------ the words

  /** A capitalised word and its space, then a number: the classifier
      sees the word lower-cased, then the number. */
  lemma NumberedNameNormal(word: string, lword: string, d: string)
    requires Lower(word) == lword && lword != [] && !IsSpace(lword[0])
    requires d != [] && AllDigits(d)
    ensures Normal(word + d) == lword + d
  {
    NoUpperDigits(d);
    LowerAppend(word, d);
    var lower := lword + d;
    assert lower[0] == lword[0] && lower[|lower| - 1] == d[|d| - 1];
    NormalOfUnpadded(word + d, lower);
  }

  // ------------------------------------------------- prologue and epilogue

  /** "prologue N" or "epilogue N": the keyword pattern at the start
      captures N. */
  lemma KeywordSpaceNumber(lower: string, kw: string, n: nat)
    requires |kw| == 8 && lower == kw + " " + DecimalString(n)
    ensures KeywordNumberAt(lower, 0, kw) == Some(n as real)
  {
    var d := DecimalString(n);
    assert lower[0..8] == kw && lower[8] == ' ' && lower[9] == d[0];
    KeywordThenNumber(lower, 0, kw, 9, 9);
    assert lower[9..] == d + "";
    NumberAtDecimal(lower, 9, n, "");
  }

  lemma ProloguePrefix(lower: string, d: string)
    requires lower == "prologue " + d
    ensures !StartsWith(lower, "oneshot") && !StartsWith(lower, "epilogue")
            && !StartsWith(lower, "creator's note") && StartsWith(lower, "prologue")
  {
    assert lower[0] == 'p' && lower[..8] == "prologue";
    if |lower| >= 14 { assert lower[..14][0] == 'p'; }
  }

  // Each family is proved for a name held in a variable (`...NameOf`),
  // then stated for the name written out.

  /** The prologue search reads N from "prologue N". */
  lemma PrologueText(lower: string, n: nat)
    requires lower == "prologue " + DecimalString(n)
    ensures PrologueSearch(lower) == Some(n as real)
  {
    KeywordSpaceNumber(lower, "prologue", n);
    SearchFinds(|lower|, q => KeywordNumberAt(lower, q, "prologue"), 0, 0);
  }

  lemma PrologueNameOf(name: string, n: nat)
    requires name == "Prologue " + DecimalString(n)
    ensures ParseChapterInfo(name) == ChapterKey(3, 1, n as real, name)
  {
    var d := DecimalString(n);
    var lower := "prologue " + d;
    PrologueLower(d);
    ProloguePrefix(lower, d);
    PrologueText(lower, n);
    ParsePrologue(name, n as real);
  }

  /** "Prologue N" is a prologue numbered N, whatever N is. */
  lemma PrologueName(n: nat)
    ensures ParseChapterInfo("Prologue " + DecimalString(n)) == ChapterKey(3, 1, n as real, "Prologue " + DecimalString(n))
  {
    PrologueNameOf("Prologue " + DecimalString(n), n);
  }

  lemma EpiloguePrefix(lower: string, d: string)
    requires lower == "epilogue " + d
    ensures !StartsWith(lower, "oneshot") && StartsWith(lower, "epilogue")
  {
    assert lower[0] == 'e' && lower[..8] == "epilogue";
  }

  /** The epilogue search reads N from "epilogue N". */
  lemma EpilogueText(lower: string, n: nat)
    requires lower == "epilogue " + DecimalString(n)
    ensures EpilogueSearch(lower) == Some(n as real)
  {
    KeywordSpaceNumber(lower, "epilogue", n);
    SearchFinds(|lower|, q => KeywordNumberAt(lower, q, "epilogue"), 0, 0);
  }

  lemma EpilogueNameOf(name: string, n: nat)
    requires name == "Epilogue " + DecimalString(n)
    ensures ParseChapterInfo(name) == ChapterKey(4, 1, n as real, name)
  {
    var d := DecimalString(n);
    var lower := "epilogue " + d;
    EpilogueLower(d);
    EpiloguePrefix(lower, d);
    EpilogueText(lower, n);
    ParseEpilogue(name, n as real);
  }

  /** "Epilogue N" is an epilogue numbered N, whatever N is. */
  lemma EpilogueName(n: nat)
    ensures ParseChapterInfo("Epilogue " + DecimalString(n)) == ChapterKey(4, 1, n as real, "Epilogue " + DecimalString(n))
  {
    EpilogueNameOf("Epilogue " + DecimalString(n), n);
  }

  // ------------------------------------------------ episodes and "ch."

  lemma EpisodePrefix(lower: string, d: string)
    requires lower == "episode " + d
    ensures !SpecialPrefix(lower) && ChapterPrefix(lower)
  {
    assert lower[..7] == "episode";
    assert lower[..8][3] == 's';
    assert lower[0] == 'e';
    if |lower| >= 14 { assert lower[..14][0] == 'e'; }
  }

  lemma EpisodeText(lower: string, n: nat)
    requires lower == "episode " + DecimalString(n)
    ensures ChapterAt(lower, 0) == Some(n as real)
  {
    var d := DecimalString(n);
    assert lower[0..7] == "episode" && lower[7] == ' ' && lower[8] == d[0];
    assert AllSpace(lower[7..8]);
    EpisodeKeywordNumber(lower, 0, 8, 8);
    assert lower[8..] == d + "";
    NumberAtDecimal(lower, 8, n, "");
  }

  lemma EpisodeNameOf(name: string, n: nat)
    requires name == "Episode " + DecimalString(n)
    ensures ParseChapterInfo(name) == ChapterKey(1, 1, n as real, name)
  {
    var d := DecimalString(n);
    var lower := "episode " + d;
    EpisodeLower(d);
    EpisodePrefix(lower, d);
    EpisodeText(lower, n);
    PlainChapterName(name, lower, n as real);
  }

  /** "Episode N" is chapter N of the first volume, whatever N is. */
  lemma EpisodeName(n: nat)
    ensures ParseChapterInfo("Episode " + DecimalString(n)) == ChapterKey(1, 1, n as real, "Episode " + DecimalString(n))
  {
    EpisodeNameOf("Episode " + DecimalString(n), n);
  }

  lemma ChDotPrefix(lower: string, d: string)
    requires lower == "ch. " + d
    ensures !SpecialPrefix(lower) && ChapterPrefix(lower)
  {
    assert lower[..2] == "ch";
    assert lower[0] == 'c';
    if |lower| >= 14 { assert lower[..14][1] == 'h'; }
  }

  lemma ChDotText(lower: string, n: nat)
    requires lower == "ch. " + DecimalString(n)
    ensures ChapterAt(lower, 0) == Some(n as real)
  {
    var d := DecimalString(n);
    assert lower[0..2] == "ch" && lower[2] == '.' && lower[3] == ' ' && lower[4] == d[0];
    assert AllSpace(lower[2..2]) && AllSpace(lower[3..4]);
    ChKeywordNumber(lower, 0, 2, 4);
    assert lower[4..] == d + "";
    NumberAtDecimal(lower, 4, n, "");
  }

  lemma ChDotNameOf(name: string, n: nat)
    requires name == "Ch. " + DecimalString(n)
    ensures ParseChapterInfo(name) == ChapterKey(1, 1, n as real, name)
  {
    var d := DecimalString(n);
    var lower := "ch. " + d;
    ChDotLower(d);
    ChDotPrefix(lower, d);
    ChDotText(lower, n);
    PlainChapterName(name, lower, n as real);
  }

  /** "Ch. N", the short keyword with its dot, is chapter N of the first
      volume, whatever N is. */
  lemma ChDotName(n: nat)
    ensures ParseChapterInfo("Ch. " + DecimalString(n)) == ChapterKey(1, 1, n as real, "Ch. " + DecimalString(n))
  {
    ChDotNameOf("Ch. " + DecimalString(n), n);
  }

  // ----------------------------------------------------------- side stories

  lemma SidePrefix(lower: string, rest: string)
    requires lower == "side " + rest
    ensures !StartsWith(lower, "oneshot") && !StartsWith(lower, "epilogue") && !StartsWith(lower, "creator's note")
            && !StartsWith(lower, "prologue") && StartsWith(lower, "side")
  {
    assert lower[0] == 's' && lower[..4] == "side";
    if |lower| >= 7 { assert lower[..7][0] == 's'; }
    if |lower| >= 8 { assert lower[..8][0] == 's'; }
    if |lower| >= 14 { assert lower[..14][0] == 's'; }
  }

  lemma SideNameOf(name: string, n: nat)
    requires name == "Side " + DecimalString(n)
    ensures ParseChapterInfo(name) == ChapterKey(5, 1, n as real, name)
  {
    var d := DecimalString(n);
    var lower := "side " + d;
    SideLower(d);
    SidePrefix(lower, d);
    SideText(lower, n);
    ParseSide(name, n as real);
  }

  /** "Side N" is a side story numbered N. */
  lemma SideName(n: nat)
    ensures ParseChapterInfo("Side " + DecimalString(n)) == ChapterKey(5, 1, n as real, "Side " + DecimalString(n))
  {
    SideNameOf("Side " + DecimalString(n), n);
  }

  lemma SideText(lower: string, n: nat)
    requires lower == "side " + DecimalString(n)
    ensures SideSearch(lower) == Some(n as real)
  {
    var d := DecimalString(n);
    assert lower[0..4] == "side" && lower[4] == ' ' && lower[5] == d[0];
    assert AllSpace(lower[4..5]);
    SideThenNumber(lower, 0, 5);
    assert lower[5..] == d + "";
    NumberAtDecimal(lower, 5, n, "");
    SearchFinds(|lower|, q => SideAt(lower, q), 0, 0);
  }

  lemma SideStoryText(lower: string, n: nat)
    requires lower == "side story " + DecimalString(n)
    ensures SideSearch(lower) == Some(n as real)
  {
    var d := DecimalString(n);
    assert lower[0..4] == "side" && lower[4] == ' ' && lower[5..10] == "story";
    assert lower[10] == ' ' && lower[11] == d[0];
    assert AllSpace(lower[4..5]) && AllSpace(lower[10..11]);
    SideStoryThenNumber(lower, 0, 5, 11);
    assert lower[11..] == d + "";
    NumberAtDecimal(lower, 11, n, "");
    SearchFinds(|lower|, q => SideAt(lower, q), 0, 0);
  }

  lemma SideStoryPrefix(lower: string, d: string)
    requires lower == "side story " + d
    ensures !StartsWith(lower, "oneshot") && !StartsWith(lower, "epilogue") && !StartsWith(lower, "creator's note")
            && !StartsWith(lower, "prologue") && StartsWith(lower, "side")
  {
    assert lower == "side " + ("story " + d);
    SidePrefix(lower, "story " + d);
  }

  lemma SideStoryNameOf(name: string, n: nat)
    requires name == "Side Story " + DecimalString(n)
    ensures ParseChapterInfo(name) == ChapterKey(5, 1, n as real, name)
  {
    var d := DecimalString(n);
    var lower := "side story " + d;
    SideStoryLower(d);
    SideStoryPrefix(lower, d);
    SideStoryText(lower, n);
    ParseSide(name, n as real);
  }

  /** "Side Story N" is a side story numbered N. */
  lemma SideStoryName(n: nat)
    ensures ParseChapterInfo("Side Story " + DecimalString(n))
         == ChapterKey(5, 1, n as real, "Side Story " + DecimalString(n))
  {
    SideStoryNameOf("Side Story " + DecimalString(n), n);
  }

  // ------------------------------------------------ a volume, then a chapter

  /** "chapter M" from `c`, with no match of the chapter pattern before:
      the chapter search reads M. */
  lemma ChapterAfter(lower: string, c: nat, m: nat)
    requires c <= |lower| && lower[c..] == "chapter " + DecimalString(m)
    requires NoChapterIn(lower, 0, c)
    ensures ChapterSearch(lower) == Some(m as real)
  {
    var dm := DecimalString(m);
    var t := lower[c..];
    assert lower[c..c + 7] == t[..7] == "chapter";
    assert lower[c + 7] == t[7] == ' ' && lower[c + 8] == t[8] == dm[0];
    assert AllSpace(lower[c + 7..c + 8]);
    ChapterKeywordNumber(lower, c, c + 8, c + 8);
    assert lower[c + 8..] == t[8..] == dm + "";
    NumberAtDecimal(lower, c + 8, m, "");
    SearchFinds(|lower|, q => ChapterAt(lower, q), 0, c);
  }

  /** How the classifier sees "<volume word> V Chapter M". */
  lemma VolumeChapterNormal(word: string, lword: string, dv: string, dm: string)
    requires Lower(word) == lword && lword != [] && !IsSpace(lword[0])
    requires dv != [] && AllDigits(dv) && dm != [] && AllDigits(dm)
    ensures Normal(word + (dv + (" Chapter " + dm))) == lword + (dv + (" chapter " + dm))
  {
    LowerChapterWord();
    NoUpperDigits(dv);
    NoUpperDigits(dm);
    LowerAppend(" Chapter ", dm);
    LowerAppend(dv, " Chapter " + dm);
    LowerAppend(word, dv + (" Chapter " + dm));
    var lower := lword + (dv + (" chapter " + dm));
    assert lower[0] == lword[0] && lower[|lower| - 1] == dm[|dm| - 1];
    NormalOfUnpadded(word + (dv + (" Chapter " + dm)), lower);
  }

  predicate VolumeChapterText(lower: string, w: string, dv: string, dm: string) {
    (w == "vol. " || w == "volume ") && dv != [] && AllDigits(dv) && dm != [] && AllDigits(dm)
    && lower == w + (dv + (" chapter " + dm))
  }

  lemma VolumeChapterPrefix(lower: string, w: string, dv: string, dm: string)
    requires VolumeChapterText(lower, w, dv, dm)
    ensures !SpecialPrefix(lower) && !ChapterPrefix(lower)
  {
    assert lower[0] == 'v';
  }

  /** The volume search reads V. */
  lemma VolumeChapterVolume(lower: string, w: string, v: nat, dm: string)
    requires VolumeChapterText(lower, w, DecimalString(v), dm)
    ensures VolumeSearch(lower) == Some(v)
  {
    var dv := DecimalString(v);
    var k := |w|;
    assert lower[k..] == dv + (" chapter " + dm);
    assert lower[k] == dv[0];
    if w == "vol. " {
      assert lower[0..3] == "vol" && lower[3] == '.' && AllSpace(lower[4..5]);
      VolumeThenNumber(lower, 0, 3, 5);
    } else {
      assert lower[0..6] == "volume" && AllSpace(lower[6..7]);
      VolumeThenNumber(lower, 0, 6, 7);
    }
    IntAtDecimal(lower, k, v, " chapter " + dm);
  }

  /** The chapter pattern matches nowhere from `a` to `b`. */
  predicate NoChapterIn(s: string, a: nat, b: nat) {
    forall q :: a <= q < b ==> ChapterAt(s, q).None?
  }

  lemma NoChapterJoin(s: string, a: nat, b: nat, c: nat)
    requires a <= b <= c && NoChapterIn(s, a, b) && NoChapterIn(s, b, c)
    ensures NoChapterIn(s, a, c)
  {
  }

  /** No 'c' or 'e' from `a` to `b`: the chapter pattern matches
      nowhere there. */
  lemma NoChapterWhere(s: string, a: nat, b: nat)
    requires forall q :: a <= q < b && q < |s| ==> s[q] != 'c' && s[q] != 'e'
    ensures NoChapterIn(s, a, b)
  {
    forall q | a <= q < b ensures ChapterAt(s, q).None? {
      ChapterAtNeedsKeyword(s, q);
    }
  }

  /** An 'e' not followed by 'p' does not start "episode". */
  lemma NoEpisodeAt(s: string, q: nat)
    requires q + 1 < |s| && s[q] == 'e' && s[q + 1] != 'p'
    ensures NoChapterIn(s, q, q + 1)
  {
    assert !StartsAt(s, q, "chapter") && !StartsAt(s, q, "ch");
    assert !StartsAt(s, q, "episode") by {
      if q + 7 <= |s| { assert s[q..q + 7][1] == s[q + 1]; }
    }
    assert ChapterAt(s, q).None?;
  }

  lemma VolNoChapter(lower: string)
    requires 5 < |lower| && lower[..5] == "vol. "
    ensures NoChapterIn(lower, 0, 5)
  {
    assert forall q :: 0 <= q < 5 ==> lower[q] == lower[..5][q];
    NoChapterWhere(lower, 0, 5);
  }

  lemma VolumeNoChapter(lower: string)
    requires 7 < |lower| && lower[..7] == "volume "
    ensures NoChapterIn(lower, 0, 7)
  {
    assert forall q :: 0 <= q < 7 ==> lower[q] == lower[..7][q];
    NoChapterWhere(lower, 0, 5);
    NoEpisodeAt(lower, 5);
    NoChapterWhere(lower, 6, 7);
    NoChapterJoin(lower, 0, 5, 6);
    NoChapterJoin(lower, 0, 6, 7);
  }

  lemma VolumeWordNoChapter(lower: string, w: string)
    requires w == "vol. " || w == "volume "
    requires |w| < |lower| && lower[..|w|] == w
    ensures NoChapterIn(lower, 0, |w|)
  {
    if w == "vol. " { VolNoChapter(lower); } else { VolumeNoChapter(lower); }
  }

  /** The chapter pattern matches nowhere before "chapter". */
  lemma VolumeChapterNothingEarlier(lower: string, w: string, dv: string, dm: string)
    requires VolumeChapterText(lower, w, dv, dm)
    ensures NoChapterIn(lower, 0, |w| + |dv| + 1)
  {
    var k := |w|;
    assert lower[..k] == w;
    VolumeWordNoChapter(lower, w);
    assert lower[k..k + |dv|] == dv && lower[k + |dv|] == ' ';
    forall q | k <= q < k + |dv| ensures lower[q] == dv[q - k] {
      assert lower[q] == lower[k..k + |dv|][q - k];
    }
    NoChapterWhere(lower, k, k + |dv| + 1);
    NoChapterJoin(lower, 0, k, k + |dv| + 1);
  }

  /** The chapter search reads M. */
  lemma VolumeChapterChapter(lower: string, w: string, dv: string, m: nat)
    requires VolumeChapterText(lower, w, dv, DecimalString(m))
    ensures ChapterSearch(lower) == Some(m as real)
  {
    var c := |w| + |dv| + 1;
    assert lower[c..] == "chapter " + DecimalString(m);
    VolumeChapterNothingEarlier(lower, w, dv, DecimalString(m));
    ChapterAfter(lower, c, m);
  }

  lemma VolumeChapterNameOf(name: string, v: nat, m: nat)
    requires name == "Vol. " + (DecimalString(v) + (" Chapter " + DecimalString(m)))
    ensures ParseChapterInfo(name) == ChapterKey(1, v, m as real, name)
  {
    var dv, dm := DecimalString(v), DecimalString(m);
    var lower := "vol. " + (dv + (" chapter " + dm));
    VolLower(dv, dm);
    VolumeChapterPrefix(lower, "vol. ", dv, dm);
    VolumeChapterVolume(lower, "vol. ", v, dm);
    VolumeChapterChapter(lower, "vol. ", dv, m);
    ParseVolumeChapter(name, v, m as real);
  }

  /** "Vol. V Chapter M": chapter M of volume V. */
  lemma VolumeChapterName(v: nat, m: nat)
    ensures var name := "Vol. " + (DecimalString(v) + (" Chapter " + DecimalString(m)));
      ParseChapterInfo(name) == ChapterKey(1, v, m as real, name)
  {
    VolumeChapterNameOf("Vol. " + (DecimalString(v) + (" Chapter " + DecimalString(m))), v, m);
  }

  lemma VolumeWordChapterNameOf(name: string, v: nat, m: nat)
    requires name == "Volume " + (DecimalString(v) + (" Chapter " + DecimalString(m)))
    ensures ParseChapterInfo(name) == ChapterKey(1, v, m as real, name)
  {
    var dv, dm := DecimalString(v), DecimalString(m);
    var lower := "volume " + (dv + (" chapter " + dm));
    VolumeLower(dv, dm);
    VolumeChapterPrefix(lower, "volume ", dv, dm);
    VolumeChapterVolume(lower, "volume ", v, dm);
    VolumeChapterChapter(lower, "volume ", dv, m);
    ParseVolumeChapter(name, v, m as real);
  }

  /** "Volume V Chapter M": chapter M of volume V. */
  lemma VolumeWordChapterName(v: nat, m: nat)
    ensures var name := "Volume " + (DecimalString(v) + (" Chapter " + DecimalString(m)));
      ParseChapterInfo(name) == ChapterKey(1, v, m as real, name)
  {
    VolumeWordChapterNameOf("Volume " + (DecimalString(v) + (" Chapter " + DecimalString(m))), v, m);
  }
}
