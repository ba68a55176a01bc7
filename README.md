# Manga page recomposition and chapter merging, modelled in Dafny

This project models the two pieces of decision logic in a small set of Python scripts for manga scans.

The first is `process_images` in `Image_Adjustment_by_Multiplier.py`. It walks an ordered list of page images in one pass. Each page is measured against a target height of `int(round(width * 2.5))`:

- pages taller than the target are cut into target-high slices;
- pages of exactly the target height are saved as they are;
- shorter pages are stacked with the pages that follow until they reach the target;
- when the next page's width differs by more than 10 pixels, the pending page is saved early;
- at the end of the input, the last partial page is saved.

Finished pages are saved as `1.webp`, `2.webp`, and so on.

The second is `merge_manga.py`. Its `parse_chapter_info` turns a chapter folder name into the sort key `(priority, volume, chapter, name)`. The key comes from ordered prefix checks and regular-expression searches. The script's `main` then copies every image of every chapter, in sorted order, into one folder under the names `1.ext`, `2.ext`, and so on. The counter runs on across chapters.

Modules:

- `Wrappers`: `Option`, and associativity of sequence concatenation.
- `Decimal`: digit strings, their value, and `DecimalString`, which is how Python prints a counter (`f"{n}"`).
- `Pages`: a page as a width and rows of RGB pixels. Also the helpers `similar_width`, `vertical_concat`, `crop_top` and `split_image`, and the integer form of the target height.
- `Engine`: the engine as specification functions and as the loop itself.
  - `Settle` covers cases 1–3 and the safety check.
  - `Merge` is the merge step.
  - `Step` is one turn of the loop.
  - `Run` and `Recompose` are the whole pass.
  - `ProcessImages` is the `while` loop. It is proved to save exactly `Recompose`'s pages under consecutive numbers.
- `EngineProperties`: whole-run properties. No pixel row is lost, reordered or invented. The total height is conserved. Runs of exact fits pass through unchanged. The branches of the loop have lemmas that say how the rest of the run continues: an undecodable input, a fresh page, an exact fit, a short page, the safety check, a width mismatch (also when the adopted page is already too tall), the merge, the exact merge and the final flush. A per-turn lemma bounds the height of every saved page. Also the worked width-1000 scenario.
- `Chapters`: `str.lower`, `str.strip`, and each regular expression of `parse_chapter_info` written out as a matcher at a position. `re.search` becomes the leftmost matching position. Also the classifier itself and Python's tuple order on its keys.
- `ChapterExamples`: one folder name per rule of the classifier, with the key it gets, and "Chronicles", whose leading "ch" is not a chapter keyword.
- `ChapterNames`: the keys of whole families of names, for every number in them: "Prologue N", "Epilogue N", "Episode N", "Ch. N", "Side N", "Side Story N", "Vol. V Chapter M" and "Volume V Chapter M".
- `Merge`: `os.path.splitext`, the image sort key, the extension filter, and the copy loop with its continuous counter.

Pages that fail to decode are `None` in the input sequence. Saving a page is appending a `SavedPage(name, page)` to the output sequence, and copying an image is appending a `Copy(chapter, image, newName)`.

Where the code and its comments disagree, the model follows the code:

- the docstring of `parse_chapter_info` gives "Creator's Note" priority 4, but the code returns 6 (`merge_manga.py:41-42`);
- the docstring calls prologues priority 3 only "when not accompanied by a chapter number", but the code gives every name starting with "prologue" priority 3.

## Model

| member | source | states |
|---|---|---|
| Pages.SimilarWidth | Image_Adjustment_by_Multiplier.py:7-9 | the widths are similar exactly when `w1` lies within `tolerance` of `w2` on either side |
| Pages.SimilarWidthSymmetric | Image_Adjustment_by_Multiplier.py:7-9 | the similarity test does not depend on the order of the two widths |
| Pages.TargetHeight | Image_Adjustment_by_Multiplier.py:113 | `int(round(w * 2.5))` with round-half-to-even: twice the target is within 1 of `5w`; a tie goes to the even candidate; the target is at least twice a positive width |
| Pages.TargetHeightUnique | Image_Adjustment_by_Multiplier.py:140 | those conditions determine the target: any `t` meeting them is `TargetHeight(w)` |
| Pages.TargetHeightExamples | Image_Adjustment_by_Multiplier.py:113 | width 1 gives 2, width 3 gives 8, width 1000 gives 2500 |
| Pages.VerticalConcat | Image_Adjustment_by_Multiplier.py:12-21 | width is the minimum of the two; height is the sum; the first image's rows come first, then the second's, each cut to that width; the result is rectangular |
| Pages.VerticalConcatSameWidth | Image_Adjustment_by_Multiplier.py:17-20 | two images of equal width are stacked without any cut |
| Pages.VerticalConcatPrefix | Image_Adjustment_by_Multiplier.py:19-20 | every output row is a prefix of the matching row of the first image's rows followed by the second's |
| Pages.Crop | Image_Adjustment_by_Multiplier.py:35 | the crop keeps the width, has height `bottom - top`, and stays rectangular |
| Pages.CropTop | Image_Adjustment_by_Multiplier.py:41-48 | the top has height `c`, the leftover `height - c`, both keep the width, and their rows together are the image's rows |
| Pages.SplitFromRows | Image_Adjustment_by_Multiplier.py:30-37 | the slices cut from row `y` on hold, in order, exactly the image's rows from `y` |
| Pages.SplitFromCount | Image_Adjustment_by_Multiplier.py:33-37 | the number of slices cut from row `y` is the ceiling of the remaining height over `d` |
| Pages.Split | Image_Adjustment_by_Multiplier.py:24-38 | slices keep the width, hold the image's rows in order, and their heights sum to the height; all but the last are `d` high and the last is 1 to `d` high; there are `ceil(height / d)` of them; none for an empty image |
| Pages.SplitButLast | Image_Adjustment_by_Multiplier.py:117-121 | the slices before the last, followed by the last, hold the image's rows |
| Pages.SplitImage | Image_Adjustment_by_Multiplier.py:24-38 | the loop that advances `y` returns exactly `Split(img, d)` |
| Decimal.DecimalString | Image_Adjustment_by_Multiplier.py:118 | a counter prints as a non-empty digit string with no leading zero, "0" only for 0 |
| Decimal.NatValueOfDecimalString | merge_manga.py:133 | reading the printed counter back gives the counter |
| Decimal.DecimalStringInjective | merge_manga.py:133 | different counters print differently |
| Engine.Settle | Image_Adjustment_by_Multiplier.py:114-137 | a fresh page: taller pages give target-high slices of its width and keep a shorter, non-empty remainder, or nothing if the last slice is full; an exact fit is saved unchanged; a short page becomes the accumulator; rows are kept in order |
| Engine.Merge | Image_Adjustment_by_Multiplier.py:178-196 | with a short accumulator: one page is saved exactly when the next page covers what is needed; that saved page is exactly one target high and has the smaller width; a longer next page leaves its own rows below the cut; a shorter one leaves a still-short accumulator of the smaller width; rows are kept in order |
| Engine.Step | Image_Adjustment_by_Multiplier.py:102-202 | one turn consumes at most one input, keeps the accumulator decodable, makes progress on the loop measure, and only emits rows that were held or read |
| Engine.ProcessImages | Image_Adjustment_by_Multiplier.py:96-202 | the loop saves the pages of `Recompose`, in order, as `1.webp`, `2.webp`, ... |
| Engine.TakeNext | Image_Adjustment_by_Multiplier.py:104-137 | with no accumulator, the turn saves and keeps what `Step` says, and numbers the saved pages on |
| Engine.Extend | Image_Adjustment_by_Multiplier.py:138-202 | with an accumulator (safety check, skip, width mismatch, merge, final flush), the turn saves and keeps what `Step` says |
| Engine.SaveSplit | Image_Adjustment_by_Multiplier.py:144-156 | splitting a page that is too tall saves `Settle`'s pages under the next numbers and keeps `Settle`'s remainder |
| EngineProperties.RunRows | Image_Adjustment_by_Multiplier.py:102-202 | from any state, the emitted rows are, row by row, prefixes of the held rows followed by the rows of the decoded remaining inputs |
| EngineProperties.RecomposeKeepsRows | Image_Adjustment_by_Multiplier.py:102-202 | the output rows are, in order and one for one, prefixes of the decoded input rows |
| EngineProperties.RecomposeConservesHeight | Image_Adjustment_by_Multiplier.py:96-202 | the heights of the saved pages sum to the heights of the decoded inputs |
| EngineProperties.RecomposeSameWidth | Image_Adjustment_by_Multiplier.py:17-20 | when every decoded input has the same width, the output holds exactly the input rows in order |
| EngineProperties.RecomposeAllFit | Image_Adjustment_by_Multiplier.py:129-134 | when every decoded input is exactly one target high, the output is the decoded inputs unchanged |
| EngineProperties.RunSkipsUndecodable | Image_Adjustment_by_Multiplier.py:108-111 | an input that fails to decode is skipped without effect |
| EngineProperties.RunFreshPage | Image_Adjustment_by_Multiplier.py:104-137 | with no accumulator, a decoded page emits `Settle`'s pages and continues with `Settle`'s remainder |
| EngineProperties.RunExactFit | Image_Adjustment_by_Multiplier.py:130-134 | an exact fit is saved unchanged and nothing is held |
| EngineProperties.RunShortPage | Image_Adjustment_by_Multiplier.py:135-137 | a short page becomes the accumulator and nothing is saved |
| EngineProperties.RunMergeExact | Image_Adjustment_by_Multiplier.py:188-193 | a similar-width page of exactly the missing height completes the page, which is saved, and nothing is held |
| EngineProperties.RunWidthMismatch | Image_Adjustment_by_Multiplier.py:171-177 | a next page whose width differs by more than 10 causes the accumulator to be saved unchanged; that page becomes the new accumulator and is not dropped |
| EngineProperties.RunFinalFlush | Image_Adjustment_by_Multiplier.py:197-202 | at the end of the input a short accumulator is saved as it is |
| EngineProperties.RunSafetyCheck | Image_Adjustment_by_Multiplier.py:142-162 | an accumulator that reached its target is settled (split or saved) before any further input is read |
| EngineProperties.RunMerge | Image_Adjustment_by_Multiplier.py:178-196 | a short accumulator and a next page of similar width: the run continues with what `Merge` saves and keeps, the next input consumed |
| EngineProperties.RunAdoptTall | Image_Adjustment_by_Multiplier.py:171-177 | on a width mismatch with a next page already at or over its own target, the accumulator is saved, then that page is settled by the next turn's safety check |
| EngineProperties.StepHeightBound | Image_Adjustment_by_Multiplier.py:102-202 | no page saved in a turn is taller than the target of the turn's accumulator; with no accumulator, every page saved is exactly the target of the page read |
| EngineProperties.TwoPagesMergeExactly | Image_Adjustment_by_Multiplier.py:188-193 | two pages of one width, the first short, whose heights sum to the target, come out as one page holding the rows of both |
| EngineProperties.ScenarioWidth1000 | Image_Adjustment_by_Multiplier.py:102-202 | width-1000 pages of heights 2500, 1200, 1300, 4000 give pages of heights 2500, 2500, 2500, 1500 |
| EngineProperties.SettleTallExample | Image_Adjustment_by_Multiplier.py:115-128 | a width-1000 page 4000 high gives one 2500-high slice and keeps the 1500-high rest |
| Chapters.Lower | merge_manga.py:28 | lower-casing keeps the length, leaves no upper-case letter, and leaves text without one unchanged |
| Chapters.LowerAlphabet | merge_manga.py:28 | every capital A to Z becomes its own small letter |
| Chapters.LowerIdempotent | merge_manga.py:28 | lower-casing twice is lower-casing once |
| Chapters.LowerAppend | merge_manga.py:28 | lower-casing distributes over concatenation |
| Chapters.LowerKeepsNonLetters | merge_manga.py:28 | whitespace, digits and dots stay where they are |
| Chapters.Strip | merge_manga.py:28 | the stripped name neither starts nor ends with whitespace |
| Chapters.StripRemovesOnlySpace | merge_manga.py:28 | the stripped name is a contiguous part of the name, and only whitespace lies on either side of it |
| Chapters.NumberAt | merge_manga.py:36-37 | `\d+(\.\d+)?` matches at a position exactly when a digit is there |
| Chapters.IntAt | merge_manga.py:60-61 | `\d+` matches at a position exactly when a digit is there |
| Chapters.IntAtDecimal | merge_manga.py:60-61 | a printed number followed by a non-digit is read back by `int(...)` as that number |
| Chapters.KeywordNumberAt | merge_manga.py:36-45 | the keyword pattern only matches where the keyword is written, and never where the keyword ends the text or is followed by anything but whitespace, a dot or a digit |
| Chapters.KeywordNumberIff | merge_manga.py:36-45 | the keyword pattern matches exactly when the keyword is followed by whitespace, an optional dot, whitespace and a digit |
| Chapters.KeywordThenNumber | merge_manga.py:36-37 | a keyword followed by whitespace, an optional dot, whitespace and a digit captures the number that starts at that digit |
| Chapters.SideAt | merge_manga.py:50 | the side-story pattern only matches where "side" is written |
| Chapters.SideThenNumber | merge_manga.py:50 | "side", an optional dot, whitespace and a digit: the pattern captures the number that starts at that digit |
| Chapters.SideStoryThenNumber | merge_manga.py:50 | "side", whitespace, "story", an optional dot, whitespace and a digit: the pattern captures the number that starts at that digit |
| Chapters.VolumeAt | merge_manga.py:60 | the volume pattern only matches where "vol" is written |
| Chapters.VolumeThenNumber | merge_manga.py:60 | "vol" or "volume", an optional dot, whitespace and a digit: the pattern captures the whole number that starts at that digit |
| Chapters.ChapterAt | merge_manga.py:64 | the chapter pattern only matches where "chapter", "ch" or "episode" is written |
| Chapters.ChapterAtNone | merge_manga.py:64 | where no chapter keyword is followed by whitespace, a dot or a digit, the chapter pattern does not match |
| Chapters.ChapterKeywordNumber | merge_manga.py:64 | "chapter" is tried first: followed by whitespace, an optional dot and a number, it captures that number |
| Chapters.ChKeywordNumber | merge_manga.py:64 | "ch" is the second alternative: followed by whitespace, an optional dot and a number, it captures that number, since such a text cannot also start "chapter" |
| Chapters.EpisodeKeywordNumber | merge_manga.py:64 | "episode" is the third alternative: followed by whitespace, an optional dot and a number, it captures that number, since neither earlier keyword matches there |
| Chapters.Search | merge_manga.py:36 | `re.search`: a result is the match at the leftmost matching position; no result means no position matches |
| Chapters.SearchFinds | merge_manga.py:64 | the first matching position is the one the search returns |
| Chapters.ParseChapterInfo | merge_manga.py:9-73 | the name is the last component. The prefix rules apply in order on the lower-cased, stripped name: "oneshot" gives (1,1,1); "epilogue" gives 4; "creator's note" gives (6,1,0); "prologue" gives 3; "side" gives 5; each with volume 1 and the number found after the keyword or 0. Otherwise priority 1 exactly when a chapter keyword with a number occurs, carrying the leftmost such number, and 10 with chapter 0 when none does. A volume other than 1 only comes from the `vol` search, and only for names not starting with a chapter keyword; for the other names, a number found by the `vol` search is the volume |
| Chapters.NumberAtDecimal | merge_manga.py:64-67 | a printed number is read back as its value when what follows neither is a digit nor a dot before a digit |
| Chapters.NumberAtFraction | merge_manga.py:64-67 | `N.F` followed by a non-digit is read back as `N` plus the exact fraction `0.F` |
| Chapters.ChapterNameRoundTrip | merge_manga.py:56-70 | "Chapter N" gets the key (1, 1, N, name) for every N |
| Chapters.TitledChapterName | merge_manga.py:56-70 | "Chapter N" followed by a title that neither continues the number nor ends in whitespace (such as " - The Storm", in any case) gets the key (1, 1, N, name) |
| Chapters.FallbackWithoutChapterNumber | merge_manga.py:56-73 | a name without a special prefix in which no chapter keyword is followed by whitespace, a dot or a digit gets priority 10 and chapter 0 |
| Chapters.FractionalChapterName | merge_manga.py:64-70 | "Chapter N.F" gets the key (1, 1, N + 0.F, name) |
| Chapters.StrLessTrichotomy | merge_manga.py:98 | Python's string `<` is irreflexive, asymmetric and total on distinct strings |
| Chapters.StrLessTransitive | merge_manga.py:98 | Python's string `<` is transitive |
| Chapters.KeyLessTransitive | merge_manga.py:98 | the tuple order on chapter keys is transitive |
| Chapters.KeyLessIrreflexive | merge_manga.py:98 | no key sorts before itself |
| Chapters.FoldersStrictlyOrdered | merge_manga.py:98 | of two distinct folder names, exactly one sorts before the other, so the sorted order is unique |
| ChapterExamples.OneshotIsFirstChapter | merge_manga.py:31-32 | "Oneshot" gets (1, 1, 1, name) |
| ChapterExamples.EpilogueWithNumber | merge_manga.py:35-39 | "Epilogue 2" gets (4, 1, 2, name) |
| ChapterExamples.CreatorsNoteWithSpace | merge_manga.py:41-42 | " Creator's Note" gets (6, 1, 0, name) after stripping |
| ChapterExamples.PrologueWithNumber | merge_manga.py:44-47 | "Prologue 1" gets (3, 1, 1, name) |
| ChapterExamples.SideStoryWithNumber | merge_manga.py:49-52 | "Side Story 3" gets (5, 1, 3, name) |
| ChapterExamples.VolumeBeforeChapter | merge_manga.py:56-70 | "Vol. 2 Ch. 5" gets (1, 2, 5, name) |
| ChapterExamples.UnrecognisedNameSortsLast | merge_manga.py:72-73 | "Extras" gets the fallback (10, 1, 0, name) |
| ChapterExamples.ChroniclesSortsLast | merge_manga.py:56-73 | "Chronicles" starts with "ch" but has no chapter number: (10, 1, 0, name) |
| ChapterNames.PrologueName | merge_manga.py:44-47 | "Prologue N" gets (3, 1, N, name) for every N |
| ChapterNames.EpilogueName | merge_manga.py:35-39 | "Epilogue N" gets (4, 1, N, name) for every N |
| ChapterNames.EpisodeName | merge_manga.py:56-70 | "Episode N" gets (1, 1, N, name) for every N |
| ChapterNames.ChDotName | merge_manga.py:56-70 | "Ch. N" gets (1, 1, N, name) for every N |
| ChapterNames.SideName | merge_manga.py:49-52 | "Side N" gets (5, 1, N, name) for every N |
| ChapterNames.SideStoryName | merge_manga.py:49-52 | "Side Story N" gets (5, 1, N, name) for every N |
| ChapterNames.VolumeChapterName | merge_manga.py:56-70 | "Vol. V Chapter M" gets (1, V, M, name) for every V and M |
| ChapterNames.VolumeWordChapterName | merge_manga.py:56-70 | "Volume V Chapter M" gets (1, V, M, name) for every V and M |
| Merge.LastDot | merge_manga.py:132 | the position found holds a dot with no dot after it; no position means no dot |
| Merge.SplitExt | merge_manga.py:132 | stem plus extension is the name; the extension is empty or one dot followed by no other dot; an extension is only split off when something other than dots precedes it |
| Merge.FirstNumberIsLeftmost | merge_manga.py:125-127 | the search of the stem finds the number at the leftmost position where `\d+(\.\d+)?` matches, and nothing when no position does |
| Merge.ImageSortKeyLeftmost | merge_manga.py:125-127 | the image sort key is the number at the leftmost matching position of the name without its extension, and 0 when none matches |
| Merge.NewNameKeepsExtension | merge_manga.py:132-133 | a new name splits back into the printed counter and the image's own extension |
| Merge.SortKeyOfNumberedName | merge_manga.py:125-133 | a name made of a printed counter and an extension has that counter as its sort key |
| Merge.ImagesKeepsImageFiles | merge_manga.py:118-122 | a folder's images are exactly its files whose lower-cased name ends in one of the eight image extensions |
| Merge.ImagesAppend | merge_manga.py:118-122 | filtering keeps the listing order: the images of two runs of files are those of the first, then those of the second |
| Merge.IsImageFileIgnoresCase | merge_manga.py:121 | the extension test gives the same answer for a name and its lower-cased form |
| Merge.UpperCaseExtensions | merge_manga.py:121 | "1.PNG" and "2.JXL" are images |
| Merge.UpperCaseText | merge_manga.py:121 | "3.TXT" is not an image |
| Merge.OutputFolderSkipped | merge_manga.py:92-95 | the folder "Final" contributes no images, because the test lower-cases the name |
| Merge.CopyFolder | merge_manga.py:113-137 | one chapter's turn: its images are appended as planned from the current counter, which advances by their number; the output folder adds nothing |
| Merge.MergeFolders | merge_manga.py:110-137 | the k-th copy (from 0) is the k-th image of the run, chapter by chapter, renamed `k + 1` followed by its own extension; the counter starts at 1 and is never reset |
| Merge.CopyImages | merge_manga.py:130-137 | one chapter's copies take the next counters in order, and the counter ends advanced by the number of images |
| Merge.PlanFollowsSchedule | merge_manga.py:110-137 | the planned copies follow the images of all chapters in order, with counters running on from the start |
| Merge.NewNameInjective | merge_manga.py:132-133 | different counters give different new names, whatever the extensions |
| Merge.PlanNamesDistinct | merge_manga.py:130-137 | no two copies of one run get the same new name |
| Merge.PlanSortKeys | merge_manga.py:125-137 | each merged file's sort key is its counter, so the merged folder sorts back in copy order |

## Left out

- Decoding, RGB conversion and WebP saving (`safe_open_image`, `save_image`, Image_Adjustment_by_Multiplier.py:51-70) are Pillow calls. A decode result is an `Option<Page>`; saving appends to a sequence; quality and lossless flags are not modelled.
- Directory listing, `os.makedirs`, `os.path.isdir`/`isfile`, `shutil.copy2`, argument parsing and the progress messages are I/O. `ProcessImages` takes the decode results in input order. `MergeFolders` takes the sub-folders with their file names.
- The file filter and `sort_key` of `process_images` (Image_Adjustment_by_Multiplier.py:84-94) are not modelled. The input order is taken as given. That key mixes `int` and `str`, which fails in Python 3 when both kinds occur.
- Python's built-in `list.sort` of the chapters (merge_manga.py:98) and of each chapter's images (merge_manga.py:125-127) is not modelled. `MergeFolders` takes folders and files in the order the sort produces. The keys (`ParseChapterInfo`, `ImageSortKey`) and the tuple order (`KeyLess`, shown to be a strict total order on distinct names) are modelled.
- Floating point: `float(...)` of a matched number is its exact decimal value (a `real`). `int(round(w * 2.5))` is the exact integer rule, which agrees with Python because `w * 2.5` is exact in binary.
- Unicode: `str.lower`, `str.strip`, `\s` and `\d` are modelled on ASCII. Other characters are left as they are.
- The `except ValueError` branch at merge_manga.py:68-69 cannot run, because the matched text always parses as a number.
- The `break` at Image_Adjustment_by_Multiplier.py:105-106 cannot run under the loop guard (no accumulator and no input left would already end the loop), so the method does not carry it.
- Engine.ProcessImages: requires decoded pages to be at least one pixel wide and rectangular (`Decodable`). At width 0 the target is 0 and `split_image` never advances. The model does not describe that non-terminating run.
- Engine.TakeNext, Engine.Extend and Engine.SaveSplit are helper methods: the loop body of `process_images` is one block in the source, and the split-and-save code appears there twice.
- `Run_ImageMultiplier_on_ALL_Folders.py` and `batch_merger.py` are not part of this model. They only run the scripts on folders through `subprocess`.
