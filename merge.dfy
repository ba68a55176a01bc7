/** The merge step of `merge_manga.py`: every image of every chapter folder,
    in the sorted order, is copied into one folder under a new name made of
    a running counter and the image's own extension. */
module Merge {

  import opened Wrappers
  import opened Decimal
  import opened Chapters

  // ------------------------------------------------------ file-name parts

  predicate AllDots(s: string) {
    forall k :: 0 <= k < |s| ==> s[k] == '.'
  }

  /** Position of the last '.' in `s`. */
  function LastDot(s: string): (d: Option<nat>)
    ensures d.Some? ==> d.value < |s| && s[d.value] == '.' && forall k :: d.value < k < |s| ==> s[k] != '.'
    ensures d.None? ==> forall k :: 0 <= k < |s| ==> s[k] != '.'
  {
    if s == [] then None
    else if s[|s| - 1] == '.' then Some(|s| - 1)
    else LastDot(s[..|s| - 1])
  }

  /** `os.path.splitext` of a bare file name: the extension runs from the
      last dot, unless only dots come before that dot (".png" has no
      extension). */
  function SplitExt(f: string): (r: (string, string))
    ensures r.0 + r.1 == f
    ensures r.1 == [] || (r.1[0] == '.' && forall k :: 1 <= k < |r.1| ==> r.1[k] != '.')
    ensures r.1 != [] ==> !AllDots(r.0)
    ensures r.1 == [] ==> forall d :: 0 <= d < |f| && f[d] == '.' ==> AllDots(f[..d])
  {
    var d := LastDot(f);
    if d.Some? && !AllDots(f[..d.value]) then
      (f[..d.value], f[d.value..])
    else
      assert forall e :: 0 <= e < |f| && f[e] == '.' ==> AllDots(f[..e]) by {
        forall e | 0 <= e < |f| && f[e] == '.' ensures AllDots(f[..e]) {
          assert f[..e] == f[..d.value][..e];
        }
      }
      (f, "")
  }

  function Extension(f: string): string {
    SplitExt(f).1
  }

  // ---------------------------------------------------- image sort key

  function NumberFrom(s: string, q: nat): Option<real> {
    if q <= |s| then NumberAt(s, q) else None
  }

  /** `re.search(r'\d+(\.\d+)?', stem)`: the leftmost number. */
  function FirstNumber(stem: string): Option<real> {
    Search(|stem|, q => NumberFrom(stem, q), 0)
  }

  /** The image sort key: the first number in the name without its
      extension, or 0 when there is none. */
  function ImageSortKey(f: string): real {
    var m := FirstNumber(SplitExt(f).0);
    if m.Some? then m.value else 0.0
  }

  /** The leftmost number of the stem, or none when no position starts one. */
  lemma FirstNumberIsLeftmost(stem: string)
    ensures FirstNumber(stem).Some? ==>
              exists q :: 0 <= q <= |stem| && NumberAt(stem, q) == FirstNumber(stem)
                          && forall q' :: 0 <= q' < q ==> NumberAt(stem, q').None?
    ensures FirstNumber(stem).None? ==> forall q :: 0 <= q <= |stem| ==> NumberAt(stem, q).None?
  {
    var m := FirstNumber(stem);
    var g: nat -> Option<real> := (q: nat) => NumberFrom(stem, q);
    assert m == Search(|stem|, g, 0);
    if m.Some? {
      var q :| 0 <= q <= |stem| && g(q) == m && forall q' :: 0 <= q' < q ==> g(q').None?;
      assert NumberAt(stem, q) == m;
      forall q' | 0 <= q' < q ensures NumberAt(stem, q').None? {
        assert g(q').None?;
      }
    } else {
      forall q | 0 <= q <= |stem| ensures NumberAt(stem, q).None? {
        assert g(q).None?;
      }
    }
  }

  /** The image sort key is the leftmost number of the name without its
      extension, or 0 when the stem holds no digit. */
  lemma ImageSortKeyLeftmost(f: string)
    ensures var stem := SplitExt(f).0;
      (exists q :: 0 <= q <= |stem| && NumberAt(stem, q) == Some(ImageSortKey(f))
                   && forall q' :: 0 <= q' < q ==> NumberAt(stem, q').None?)
      || (ImageSortKey(f) == 0.0 && forall q :: 0 <= q <= |stem| ==> NumberAt(stem, q).None?)
  {
    FirstNumberIsLeftmost(SplitExt(f).0);
  }

  /** An extension as `os.path.splitext` returns it: empty, or a dot and no
      further dot. */
  predicate ExtensionShape(ext: string) {
    ext == [] || (ext[0] == '.' && forall k :: 1 <= k < |ext| ==> ext[k] != '.')
  }

  lemma ExtensionHasShape(f: string)
    ensures ExtensionShape(Extension(f))
  {
  }

  /** A decimal number followed by an extension splits into exactly those
      two parts. */
  lemma SplitNumberedName(n: nat, ext: string)
    requires ExtensionShape(ext)
    ensures SplitExt(DecimalString(n) + ext) == (DecimalString(n), ext)
  {
    var d := DecimalString(n);
    var f := d + ext;
    assert f[..|d|] == d;
    assert d[0] != '.';
    if ext == [] {
      assert f == d;
      assert LastDot(f).None?;
    } else {
      assert f[|d|] == '.';
      forall k | |d| < k < |f| ensures f[k] != '.' {
        assert f[k] == ext[k - |d|];
      }
      assert LastDot(f) == Some(|d|);
      assert !AllDots(f[..|d|]) by { assert f[..|d|][0] == d[0]; }
      assert f[|d|..] == ext;
    }
  }

  /** A name made only of a decimal number and an extension as
      `os.path.splitext` returns it sorts by that number. */
  lemma SortKeyOfNumberedName(n: nat, ext: string)
    requires ExtensionShape(ext)
    ensures ImageSortKey(DecimalString(n) + ext) == n as real
  {
    var d := DecimalString(n);
    SplitNumberedName(n, ext);
    assert d[0..] == d + "";
    NumberAtDecimal(d, 0, n, "");
    assert NumberFrom(d, 0) == Some(n as real);
    SearchFinds(|d|, q => NumberFrom(d, q), 0, 0);
    assert FirstNumber(d) == Some(n as real);
  }

  // ------------------------------------------------------------ filters

  function EndsWith(s: string, suffix: string): bool {
    |suffix| <= |s| && s[|s| - |suffix|..] == suffix
  }

  /** The extensions the merge copies, compared after lower-casing. */
  const ImageExtensions: seq<string> := [".png", ".jpg", ".jpeg", ".gif", ".bmp", ".webp", ".jxl", ".avif"]

  predicate IsImageFile(f: string) {
    exists k :: 0 <= k < |ImageExtensions| && EndsWith(Lower(f), ImageExtensions[k])
  }

  /** The output folder itself is never taken for a chapter. */
  predicate IsChapterFolder(name: string) {
    Lower(name) != "final"
  }

  /** The extension test ignores case. */
  lemma IsImageFileIgnoresCase(f: string)
    ensures IsImageFile(Lower(f)) == IsImageFile(f)
  {
    LowerIdempotent(f);
  }

  /** Upper-case extensions are images too. */
  lemma UpperCaseExtensions()
    ensures IsImageFile("1.PNG") && IsImageFile("2.JXL")
  {
    assert Lower("1.PNG") == "1.png";
    assert EndsWith("1.png", ImageExtensions[0]);
    assert Lower("2.JXL") == "2.jxl";
    assert EndsWith("2.jxl", ImageExtensions[6]);
  }

  /** A text file is not an image, whatever its case. */
  lemma UpperCaseText()
    ensures !IsImageFile("3.TXT")
  {
    assert Lower("3.TXT") == "3.txt";
    assert "3.txt"[1..] == ".txt";
  }

  // ------------------------------------------------------------ the plan

  /** A sub-folder with the files it lists, in the order the image sort
      key gives them. */
  datatype Folder = Folder(name: string, files: seq<string>)

  /** One `shutil.copy2`: which image of which chapter, under which new name. */
  datatype Copy = Copy(chapter: string, image: string, newName: string)

  /** The files of the folder that have an image extension, in order. */
  function Images(folder: Folder): seq<string>
    decreases |folder.files|
  {
    if folder.files == [] then []
    else
      var rest := Images(Folder(folder.name, folder.files[1..]));
      if IsImageFile(folder.files[0]) then [folder.files[0]] + rest else rest
  }

  lemma {:induction false} ImagesKeepsImageFiles(folder: Folder)
    ensures forall f :: f in Images(folder) <==> f in folder.files && IsImageFile(f)
    decreases |folder.files|
  {
    if folder.files != [] {
      ImagesKeepsImageFiles(Folder(folder.name, folder.files[1..]));
      assert forall g :: g in folder.files <==> g == folder.files[0] || g in folder.files[1..];
    }
  }

  /** Filtering keeps the listing order: the images of two runs of files
      are the images of the first run, then those of the second. */
  lemma {:induction false} ImagesAppend(name: string, a: seq<string>, b: seq<string>)
    ensures Images(Folder(name, a + b)) == Images(Folder(name, a)) + Images(Folder(name, b))
    decreases |a|
  {
    if a == [] {
      assert a + b == b;
    } else {
      assert (a + b)[0] == a[0] && (a + b)[1..] == a[1..] + b;
      ImagesAppend(name, a[1..], b);
    }
  }

  /** The output folder contributes no images, however its name is
      capitalised. */
  lemma OutputFolderSkipped(folder: Folder)
    requires folder.name == "Final"
    ensures Contributed(folder) == []
  {
    assert Lower(folder.name) == "final";
  }

  /** The images a folder contributes: none for the output folder. */
  function Contributed(folder: Folder): seq<string> {
    if IsChapterFolder(folder.name) then Images(folder) else []
  }

  /** The name of the `num`-th copy: the counter, then the extension. */
  function NewName(num: nat, image: string): string {
    DecimalString(num) + Extension(image)
  }

  /** A copy keeps the extension of its image, and its stem is the counter. */
  lemma NewNameKeepsExtension(num: nat, image: string)
    ensures SplitExt(NewName(num, image)) == (DecimalString(num), Extension(image))
  {
    ExtensionHasShape(image);
    SplitNumberedName(num, Extension(image));
  }

  /** The copies of `images` of `chapter`, numbered from `start`. */
  function ImagePlan(chapter: string, images: seq<string>, start: nat): (plan: seq<Copy>)
    ensures |plan| == |images|
  {
    seq(|images|, i requires 0 <= i < |images| => Copy(chapter, images[i], NewName(start + i, images[i])))
  }

  function FolderPlan(folder: Folder, start: nat): (plan: seq<Copy>)
    ensures |plan| == |Contributed(folder)|
  {
    ImagePlan(folder.name, Contributed(folder), start)
  }

  /** The copies made for `folders`, numbered from `start`. */
  function Plan(folders: seq<Folder>, start: nat): seq<Copy>
  {
    if folders == [] then []
    else FolderPlan(folders[0], start) + Plan(folders[1..], start + |Contributed(folders[0])|)
  }

  /** Every image of the run, chapter by chapter. */
  function Schedule(folders: seq<Folder>): seq<(string, string)>
  {
    if folders == [] then []
    else
      var images := Contributed(folders[0]);
      seq(|images|, i requires 0 <= i < |images| => (folders[0].name, images[i])) + Schedule(folders[1..])
  }

  lemma PlanUnfold(folders: seq<Folder>, c: nat, start: nat)
    requires c < |folders|
    ensures Plan(folders[c..], start)
         == FolderPlan(folders[c], start) + Plan(folders[c + 1..], start + |Contributed(folders[c])|)
  {
    assert folders[c..][1..] == folders[c + 1..];
  }

  /** The merge loop of `main`. */
  method MergeFolders(folders: seq<Folder>) returns (copies: seq<Copy>)
    ensures copies == Plan(folders, 1)
    ensures |copies| == |Schedule(folders)|
    ensures forall k :: 0 <= k < |copies| ==>
              copies[k] == Copy(Schedule(folders)[k].0, Schedule(folders)[k].1, NewName(k + 1, Schedule(folders)[k].1))
  {
    copies := [];
    var currentNum := 1;
    var c := 0;
    while c < |folders|
      invariant 0 <= c <= |folders|
      invariant currentNum == |copies| + 1
      invariant copies + Plan(folders[c..], currentNum) == Plan(folders, 1)
    {
      var folder := folders[c];
      PlanUnfold(folders, c, currentNum);
      AppendAssoc(copies, FolderPlan(folder, currentNum), Plan(folders[c + 1..], currentNum + |Contributed(folder)|));
      copies, currentNum := CopyFolder(folder, copies, currentNum);
      c := c + 1;
    }
    PlanFollowsSchedule(folders, 1);
  }

  /** One folder of the merge loop: the output folder is skipped, a
      chapter folder has its images copied. */
  method CopyFolder(folder: Folder, copies: seq<Copy>, currentNum: nat)
    returns (copies': seq<Copy>, currentNum': nat)
    ensures currentNum' == currentNum + |Contributed(folder)|
    ensures copies' == copies + FolderPlan(folder, currentNum)
  {
    if IsChapterFolder(folder.name) {
      var images := Images(folder);
      copies', currentNum' := CopyImages(folder.name, images, copies, currentNum);
    } else {
      copies', currentNum' := copies, currentNum;
      assert FolderPlan(folder, currentNum) == [];
    }
  }

  /** The copy loop over one chapter's images. */
  method CopyImages(chapter: string, images: seq<string>, copies: seq<Copy>, currentNum: nat)
    returns (copies': seq<Copy>, currentNum': nat)
    ensures currentNum' == currentNum + |images|
    ensures copies' == copies + ImagePlan(chapter, images, currentNum)
  {
    copies', currentNum' := copies, currentNum;
    for i := 0 to |images|
      invariant currentNum' == currentNum + i
      invariant copies' == copies + ImagePlan(chapter, images, currentNum)[..i]
    {
      var image := images[i];
      var ext := SplitExt(image).1;
      var newFilename := DecimalString(currentNum') + ext;
      copies' := copies' + [Copy(chapter, image, newFilename)];
      currentNum' := currentNum' + 1;
      assert ImagePlan(chapter, images, currentNum)[..i + 1]
          == ImagePlan(chapter, images, currentNum)[..i] + [Copy(chapter, image, newFilename)];
    }
    assert ImagePlan(chapter, images, currentNum)[..|images|] == ImagePlan(chapter, images, currentNum);
  }

  // --------------------------------------------------- what the plan keeps

  /** The `k`-th copy is the `k`-th image of the run, renamed to `start + k`. */
  lemma {:induction false} PlanFollowsSchedule(folders: seq<Folder>, start: nat)
    ensures |Plan(folders, start)| == |Schedule(folders)|
    ensures forall k :: 0 <= k < |Schedule(folders)| ==>
              Plan(folders, start)[k]
              == Copy(Schedule(folders)[k].0, Schedule(folders)[k].1, NewName(start + k, Schedule(folders)[k].1))
    decreases |folders|
  {
    if folders != [] {
      var n := |Contributed(folders[0])|;
      PlanFollowsSchedule(folders[1..], start + n);
      var head := FolderPlan(folders[0], start);
      var images := Contributed(folders[0]);
      var first := seq(|images|, i requires 0 <= i < |images| => (folders[0].name, images[i]));
      assert Schedule(folders) == first + Schedule(folders[1..]);
      assert Plan(folders, start) == head + Plan(folders[1..], start + n);
      forall k | 0 <= k < |Schedule(folders)|
        ensures Plan(folders, start)[k]
             == Copy(Schedule(folders)[k].0, Schedule(folders)[k].1, NewName(start + k, Schedule(folders)[k].1))
      {
        if k < n {
          assert Plan(folders, start)[k] == head[k];
          assert Schedule(folders)[k] == first[k];
        } else {
          assert Plan(folders, start)[k] == Plan(folders[1..], start + n)[k - n];
          assert Schedule(folders)[k] == Schedule(folders[1..])[k - n];
          assert start + n + (k - n) == start + k;
        }
      }
    }
  }

  /** The digits in front of an extension are exactly the leading run of
      digits of the name. */
  lemma LeadingDigits(d: string, e: string)
    requires AllDigits(d) && (e == [] || e[0] == '.')
    ensures SkipDigits(d + e, 0) == |d|
  {
    var w := d + e;
    assert w[0..|d|] == d;
    if e == [] {
      assert w[0..] == d;
      SkipDigitsAll(w, 0);
    } else {
      assert w[|d|] == '.';
      SkipDigitsTo(w, 0, |d|);
    }
  }

  /** A new name gives back the counter it was made from. */
  lemma NewNameInjective(a: nat, b: nat, x: string, y: string)
    requires NewName(a, x) == NewName(b, y)
    ensures a == b
  {
    var da, db := DecimalString(a), DecimalString(b);
    var ea, eb := Extension(x), Extension(y);
    LeadingDigits(da, ea);
    LeadingDigits(db, eb);
    assert da == (da + ea)[..|da|] == (db + eb)[..|db|] == db;
    DecimalStringInjective(a, b);
  }

  /** No two copies of one run get the same new name. */
  lemma PlanNamesDistinct(folders: seq<Folder>, start: nat)
    ensures forall j, k :: 0 <= j < k < |Plan(folders, start)| ==>
              Plan(folders, start)[j].newName != Plan(folders, start)[k].newName
  {
    PlanFollowsSchedule(folders, start);
    forall j, k | 0 <= j < k < |Plan(folders, start)|
      ensures Plan(folders, start)[j].newName != Plan(folders, start)[k].newName
    {
      if Plan(folders, start)[j].newName == Plan(folders, start)[k].newName {
        NewNameInjective(start + j, start + k, Schedule(folders)[j].1, Schedule(folders)[k].1);
      }
    }
  }

  /** Sorted again by the image key, the merged files come back in the
      order they were copied: each new name's key is its counter. */
  lemma PlanSortKeys(folders: seq<Folder>, start: nat)
    ensures forall k :: 0 <= k < |Plan(folders, start)| ==>
              ImageSortKey(Plan(folders, start)[k].newName) == (start + k) as real
  {
    PlanFollowsSchedule(folders, start);
    forall k | 0 <= k < |Plan(folders, start)|
      ensures ImageSortKey(Plan(folders, start)[k].newName) == (start + k) as real
    {
      var image := Schedule(folders)[k].1;
      ExtensionHasShape(image);
      SortKeyOfNumberedName(start + k, Extension(image));
    }
  }
}
