/** One folder name for each rule of the classifier, with the key it gets,
    and a name whose "ch" is not a chapter keyword.
    Each name is a parameter fixed by the precondition. */
module ChapterExamples {

  import opened Wrappers
  import opened Decimal
  import opened Chapters

  // ------------------------------------------------------------ oneshot

  lemma OneshotLower(name: string)
    requires name == "Oneshot"
    ensures Lower(name) == "oneshot"
  {
  }

  lemma OneshotNormal(name: string)
    requires name == "Oneshot"
    ensures Normal(name) == "oneshot"
  {
    OneshotLower(name);
    NormalOfUnpadded(name, "oneshot");
  }

  lemma OneshotIsFirstChapter(name: string)
    requires name == "Oneshot"
    ensures ParseChapterInfo(name) == ChapterKey(1, 1, 1.0, name)
  {
    OneshotNormal(name);
    assert StartsWith("oneshot", "oneshot");
  }

  // ----------------------------------------------------------- epilogue

  lemma EpilogueLower(name: string)
    requires name == "Epilogue 2"
    ensures Lower(name) == "epilogue 2"
  {
  }

  lemma EpilogueNormal(name: string)
    requires name == "Epilogue 2"
    ensures Normal(name) == "epilogue 2"
  {
    EpilogueLower(name);
    NormalOfUnpadded(name, "epilogue 2");
  }

  lemma EpilogueNumber(s: string)
    requires s == "epilogue 2"
    ensures EpilogueSearch(s) == Some(2.0)
  {
    assert StartsAt(s, 0, "epilogue");
    assert SkipSpaces(s, 8) == 9;
    assert SkipDigits(s, 9) == 10;
    assert NatValue(s[9..10]) == 2;
    assert NumberAt(s, 9) == Some(2.0);
    assert KeywordNumberAt(s, 0, "epilogue") == Some(2.0);
  }

  lemma EpiloguePrefix(s: string)
    requires s == "epilogue 2"
    ensures !StartsWith(s, "oneshot") && StartsWith(s, "epilogue")
  {
    assert s[..7][0] == 'e';
  }

  lemma EpilogueWithNumber(name: string)
    requires name == "Epilogue 2"
    ensures ParseChapterInfo(name) == ChapterKey(4, 1, 2.0, name)
  {
    EpilogueNormal(name);
    EpilogueNumber(Normal(name));
    EpiloguePrefix(Normal(name));
  }

  // ------------------------------------------------------ creator's note

  lemma CreatorsNoteLower(name: string)
    requires name == " Creator's Note"
    ensures Lower(name) == " creator's note"
  {
  }

  lemma CreatorsNoteTail(s: string)
    requires s == " creator's note"
    ensures IsSpace(s[0]) && s[1..] == "creator's note"
  {
  }

  lemma CreatorsNoteTrim(s: string)
    requires s == " creator's note"
    ensures TrimStart(s) == "creator's note"
  {
    CreatorsNoteTail(s);
    var u := s[1..];
    assert TrimStart(s) == TrimStart(u);
    assert u[0] == 'c';
  }

  lemma CreatorsNoteNormal(name: string)
    requires name == " Creator's Note"
    ensures Normal(name) == "creator's note"
  {
    CreatorsNoteLower(name);
    CreatorsNoteTrim(Lower(name));
    assert TrimEnd("creator's note") == "creator's note";
  }

  lemma CreatorsNotePrefix(s: string)
    requires s == "creator's note"
    ensures !StartsWith(s, "oneshot") && !StartsWith(s, "epilogue") && StartsWith(s, "creator's note")
  {
    assert s[..7][0] == 'c' && s[..8][0] == 'c';
  }

  lemma CreatorsNoteWithSpace(name: string)
    requires name == " Creator's Note"
    ensures ParseChapterInfo(name) == ChapterKey(6, 1, 0.0, name)
  {
    CreatorsNoteNormal(name);
    CreatorsNotePrefix(Normal(name));
  }

  // ----------------------------------------------------------- prologue

  lemma PrologueNormal(name: string)
    requires name == "Prologue 1"
    ensures Normal(name) == "prologue 1"
  {
    assert Lower(name) == "prologue 1";
    NormalOfUnpadded(name, "prologue 1");
  }

  lemma PrologueNumber(s: string)
    requires s == "prologue 1"
    ensures PrologueSearch(s) == Some(1.0)
  {
    assert StartsAt(s, 0, "prologue");
    assert SkipSpaces(s, 8) == 9;
    assert SkipDigits(s, 9) == 10;
    assert NatValue(s[9..10]) == 1;
    assert NumberAt(s, 9) == Some(1.0);
    assert KeywordNumberAt(s, 0, "prologue") == Some(1.0);
  }

  lemma ProloguePrefix(s: string)
    requires s == "prologue 1"
    ensures !StartsWith(s, "oneshot") && !StartsWith(s, "epilogue") && !StartsWith(s, "creator's note")
            && StartsWith(s, "prologue")
  {
    assert s[..7][0] == 'p' && s[..8][0] == 'p';
    assert |s| < 14;
  }

  /** A prologue keeps priority 3 even with a number after it. */
  lemma PrologueWithNumber(name: string)
    requires name == "Prologue 1"
    ensures ParseChapterInfo(name) == ChapterKey(3, 1, 1.0, name)
  {
    PrologueNormal(name);
    PrologueNumber(Normal(name));
    ProloguePrefix(Normal(name));
  }

  // ---------------------------------------------------------- side story

  lemma SideStoryLower(name: string)
    requires name == "Side Story 3"
    ensures Lower(name) == "side story 3"
  {
  }

  lemma SideStoryNormal(name: string)
    requires name == "Side Story 3"
    ensures Normal(name) == "side story 3"
  {
    SideStoryLower(name);
    NormalOfUnpadded(name, "side story 3");
  }

  lemma SideStoryNumber(s: string)
    requires s == "side story 3"
    ensures SideSearch(s) == Some(3.0)
  {
    assert StartsAt(s, 0, "side");
    assert SkipSpaces(s, 4) == 5;
    assert StartsAt(s, 5, "story");
    assert SkipSpaces(s, 10) == 11;
    assert SkipDigits(s, 11) == 12;
    assert NatValue(s[11..12]) == 3;
    assert NumberAt(s, 11) == Some(3.0);
    assert SideAt(s, 0) == Some(3.0);
  }

  lemma SideStoryPrefix(s: string)
    requires s == "side story 3"
    ensures !StartsWith(s, "oneshot") && !StartsWith(s, "epilogue") && !StartsWith(s, "creator's note")
            && !StartsWith(s, "prologue") && StartsWith(s, "side")
  {
    assert s[..7][0] == 's' && s[..8][0] == 's';
    assert |s| < 14;
  }

  lemma SideStoryWithNumber(name: string)
    requires name == "Side Story 3"
    ensures ParseChapterInfo(name) == ChapterKey(5, 1, 3.0, name)
  {
    SideStoryNormal(name);
    SideStoryNumber(Normal(name));
    SideStoryPrefix(Normal(name));
  }

  // ---------------------------------------------------- volume and chapter

  lemma VolumeChapterLower(name: string)
    requires name == "Vol. 2 Ch. 5"
    ensures Lower(name) == "vol. 2 ch. 5"
  {
  }

  lemma VolumeChapterNormal(name: string)
    requires name == "Vol. 2 Ch. 5"
    ensures Normal(name) == "vol. 2 ch. 5"
  {
    VolumeChapterLower(name);
    NormalOfUnpadded(name, "vol. 2 ch. 5");
  }

  lemma VolumeChapterPrefix(s: string)
    requires s == "vol. 2 ch. 5"
    ensures !SpecialPrefix(s) && !ChapterPrefix(s)
  {
    assert s[0] == 'v';
  }

  lemma VolumeChapterVolume(s: string)
    requires s == "vol. 2 ch. 5"
    ensures VolumeSearch(s) == Some(2)
  {
    assert StartsAt(s, 0, "vol");
    assert !StartsAt(s, 3, "ume") by { assert s[3] == '.'; }
    assert SkipSpaces(s, 4) == 5;
    assert SkipDigits(s, 5) == 6;
    assert NatValue(s[5..6]) == 2;
    assert VolumeAt(s, 0) == Some(2);
  }

  lemma VolumeChapterNothingEarlier(s: string)
    requires s == "vol. 2 ch. 5"
    ensures forall q :: 0 <= q < 7 ==> ChapterAt(s, q).None?
  {
    forall q | 0 <= q < 7 ensures ChapterAt(s, q).None? {
      ChapterAtNeedsKeyword(s, q);
      assert s[q] != 'c' && s[q] != 'e';
    }
  }

  lemma VolumeChapterMatch(s: string)
    requires s == "vol. 2 ch. 5"
    ensures ChapterAt(s, 7) == Some(5.0)
  {
    assert !StartsAt(s, 7, "chapter") by { assert s[9] == '.'; }
    assert StartsAt(s, 7, "ch");
    assert SkipSpaces(s, 9) == 9;
    assert SkipSpaces(s, 10) == 11;
    assert SkipDigits(s, 11) == 12;
    assert NatValue(s[11..12]) == 5;
    assert NumberAt(s, 11) == Some(5.0);
  }

  lemma VolumeChapterNumber(s: string)
    requires s == "vol. 2 ch. 5"
    ensures ChapterSearch(s) == Some(5.0)
  {
    VolumeChapterNothingEarlier(s);
    VolumeChapterMatch(s);
    SearchFinds(|s|, q => ChapterAt(s, q), 0, 7);
  }

  /** A volume number before the chapter word sets the volume. */
  lemma VolumeBeforeChapter(name: string)
    requires name == "Vol. 2 Ch. 5"
    ensures ParseChapterInfo(name) == ChapterKey(1, 2, 5.0, name)
  {
    VolumeChapterNormal(name);
    VolumeChapterPrefix(Normal(name));
    VolumeChapterVolume(Normal(name));
    VolumeChapterNumber(Normal(name));
  }

  // ------------------------------------------------------------ fallback

  lemma ExtrasLower(name: string)
    requires name == "Extras"
    ensures Lower(name) == "extras"
  {
  }

  lemma ExtrasNormal(name: string)
    requires name == "Extras"
    ensures Normal(name) == "extras"
  {
    ExtrasLower(name);
    NormalOfUnpadded(name, "extras");
  }

  lemma ExtrasHasNoNumber(s: string)
    requires s == "extras"
    ensures VolumeSearch(s).None? && ChapterSearch(s).None?
  {
    forall q | 0 <= q <= |s| ensures VolumeAt(s, q).None? && ChapterAt(s, q).None? {
      VolumeAtNeedsKeyword(s, q);
      ChapterAtNeedsKeyword(s, q);
      if q == 0 {
        assert !StartsAt(s, 0, "ch") && !StartsAt(s, 0, "chapter") && !StartsAt(s, 0, "episode");
      }
    }
  }

  lemma ExtrasPrefix(s: string)
    requires s == "extras"
    ensures !SpecialPrefix(s) && !ChapterPrefix(s)
  {
    assert s[0] == 'e' && s[1] == 'x';
  }

  lemma ChroniclesNormal(name: string)
    requires name == "Chronicles"
    ensures Normal(name) == "chronicles"
  {
    assert Lower(name) == "chronicles";
    NormalOfUnpadded(name, "chronicles");
  }

  lemma ChroniclesNoNumber(s: string)
    requires s == "chronicles"
    ensures !SpecialPrefix(s) && ChapterPrefix(s)
    ensures forall q :: 0 <= q <= |s| ==>
              NoNumberAfter(s, q, "chapter") && NoNumberAfter(s, q, "ch") && NoNumberAfter(s, q, "episode")
  {
    assert s[0] == 'c' && s[1] == 'h' && s[2] == 'r';
    assert s[..2] == "ch";
    forall q | 0 <= q <= |s|
      ensures NoNumberAfter(s, q, "chapter") && NoNumberAfter(s, q, "ch") && NoNumberAfter(s, q, "episode")
    {
      if q > 0 && q < |s| {
        assert s[q] != 'c' || s[q + 1] != 'h';
        assert s[q] != 'e' || q + 1 == |s| || s[q + 1] != 'p';
      }
    }
  }

  /** "Chronicles" starts with "ch", but no number follows it: the name
      sorts last, and the volume stays 1. */
  lemma ChroniclesSortsLast(name: string)
    requires name == "Chronicles"
    ensures ParseChapterInfo(name) == ChapterKey(10, 1, 0.0, name)
  {
    ChroniclesNormal(name);
    ChroniclesNoNumber(Normal(name));
    FallbackWithoutChapterNumber(name);
  }

  /** A name with no recognised rule sorts last. */
  lemma UnrecognisedNameSortsLast(name: string)
    requires name == "Extras"
    ensures ParseChapterInfo(name) == ChapterKey(10, 1, 0.0, name)
  {
    ExtrasNormal(name);
    ExtrasHasNoNumber(Normal(name));
    ExtrasPrefix(Normal(name));
  }
}
