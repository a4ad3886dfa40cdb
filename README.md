# Strict 18-page report generator, modelled in Dafny

`app.py` is a small Streamlit tool. It takes three inputs:
- a job name;
- a template PDF;
- exactly 18 photographs: a full view plus eight compass views of each of two devices, a launcher and a receiver.

It merges them into one PDF report of 18 pages. This project models the part of the tool that decides which pages the report gets:

- **The alias tables.** `launcher_order` and `receiver_order` give page by page the file names each page accepts.
- **`find_file`.** It matches an upload to a page by case-insensitive equality of the whole file name.
- **The two assembly loops of `generate_report`.** Pages 1 and 10 are the full view of each device. Every other page is captioned with the device and its direction. The first page without a file raises an exception, unless the font is missing: then page 2, the first captioned page, raises the font error as soon as its file is found, whatever later pages lack.
- **The caption derivation.** It takes the second word of a page's first alias, removes `.jpg` and capitalizes the result.
- **The choice of template background page.** The second page is used when there is one, else the first.
- **The input guard in front of `generate_report`.**

Files:

- `wrappers.dfy`: `Option` and `Result`.
- `text.dfy` (module `Text`): the Python string operations the core uses, restricted to ASCII:
  - `.lower()` (`Lower`);
  - `.capitalize()` (`Capitalize`);
  - `.split()` (`Words`);
  - `.replace('.jpg', '')` (`RemoveJpg`).
- `registry.dfy` (module `Registry`):
  - the two tables, copied verbatim;
  - page numbering (`DeviceOf`, `FirstPage`, `AllowedNames`);
  - the caption word (`DirectionWord`);
  - the facts about the tables: all lower case, pairwise disjoint, and the first alias of each directional entry (pages 2-9 and 11-18) of the form `<device> <direction>.jpg`.
- `matcher.dfy` (module `Matcher`): `find_file` is modelled twice:
  - as a recursive reference function `FirstMatch`;
  - as the loop `FindFile`, proved equal to `FirstMatch`.
- `assembly.dfy` (module `Assembly`):
  - `generate_report` as the method `GenerateReport`, with one `AppendDevicePages` loop per table appending to a `seq<Page>`;
  - the value `Report` that the method is proved to compute.
- `report_facts.dfy` (module `ReportFacts`): what `Report` is in terms of the tables and the uploads:
  - success and its layout;
  - the order of the pages, and independence from upload order;
  - which error is raised.
- `app.dfy` (module `App`): the guard at app.py:123 and the button handler. Also what a guarded run yields: every upload used exactly once on success, a result that does not depend on the order of the uploads, and how the guard can pass while generation still fails.

Some points where the model takes a position:

- **Uploads.**
  - An upload is a name plus an opaque `content` number standing in for its bytes.
  - `find_file` returns the upload itself. `FindFile` returns its index in the upload list, which identifies it.
- **Template.**
  - A template document is its page count plus opaque content.
  - `Background` records which document and which page index were rasterised.
  - Opening an empty document is the only template failure modelled (`TemplateHasNoPage`). That is what `doc.load_page(0)` raises when the document has no page.
- **Font.**
  - `load_font_or_fail` is modelled as the boolean `fontAvailable`.
  - The font is looked up inside `create_directional_page`, so the first directional page (page 2) raises `FontNotFound` when the font is absent. This happens after the file for that page has been found.
  - The full-view pages never need the font.
- **Caption word.** The source computes the caption word from the first alias at run time. The model proves (`Registry.DirectionWordOfPage`) that on the shipped tables this computation never fails and always yields the page's compass word, `Registry.Compass`. `Assembly.SlotOutcome` states the caption with that word, and `Assembly.MakeSlotPage` computes it the way the source does.
- **Directions.** The table order is East, Northeast, North, Northwest, West, Southwest, South, Southeast. That is the page order.
- **Matching.** `find_file` compares whole lower-cased file names. It strips no separators or extensions and does no substring matching. It never removes a file from the pool. Generation walks the tables in their own order and raises at the first page that has no file, unless the font is missing and page 2 was reached first.

## Model

| member | source | states |
|---|---|---|
| Text.LowerAll | app.py:70 | `[name.lower() for name in allowed_names]`: one entry per allowed name, each its lower-case form |
| Text.Lower | app.py:70 | `.lower()`: same length, every character mapped to its lower-case form (ASCII) |
| Text.LowerIdempotent | app.py:70-72 | lower-casing an already lower-cased name changes nothing |
| Text.LowerEqual | app.py:72 | two names have the same lower-case form exactly when they agree position by position up to case |
| Text.Capitalize | app.py:89 | `.capitalize()`: same length, first character upper-cased, the rest lower-cased |
| Text.CapitalizeIdempotent | app.py:89 | capitalizing twice is capitalizing once |
| Text.CapitalizeUndoesLower | app.py:89 | a capitalized word is recovered by capitalizing its lower-case spelling |
| Text.Words | app.py:89 | `.split()` yields non-empty words without whitespace |
| Text.WordsOfTwo | app.py:89 | two space-free words joined by one space split back into exactly those two words |
| Text.RemoveJpg | app.py:89 | its own contract states only that removing `.jpg` never lengthens a string; what it yields on the aliases is stated by `Text.RemoveJpgSuffix` |
| Text.RemoveJpgSuffix | app.py:89 | `.replace('.jpg', '')` on `<stem>.jpg` with a dot-free stem gives the stem back |
| Registry.LauncherOrder | app.py:9-19 | the launcher table, entry for entry; the first alias of each directional entry (pages 2-9) is `launcher <direction>.jpg` (`Registry.LauncherFirstAlias`) and every alias is lower case (`Registry.AllowedNamesAreLowerCase`) |
| Registry.ReceiverOrder | app.py:21-31 | the receiver table, entry for entry; the first alias of each directional entry (pages 11-18) is `receiver <direction>.jpg` (`Registry.ReceiverFirstAlias`) and every alias is lower case |
| Registry.DeviceOf | app.py:81-95 | pages 1-9 belong to the launcher table and pages 10-18 to the receiver table, each inside its device's page range |
| Registry.AllowedNames | app.py:81-95 | every page has a non-empty list of accepted names |
| Registry.SlotOfDevice | app.py:81-95 | entry `i` of a device's table is page `start + i` of the `enumerate` |
| Registry.FullViewIsFirstOfDevice | app.py:85-99 | the `idx == 1` and `idx == 10` branches are exactly the first page of each device |
| Registry.DirectionWord | app.py:89 | the caption word exists only when the first alias has at least two words |
| Registry.DirectionWordOf | app.py:89 | for a first alias `<device> <direction>.jpg` the caption word is the capitalized direction |
| Registry.DirectionWordOfPage | app.py:89-104 | on every directional page the derivation succeeds and yields that page's compass word (page 3 "Northeast", page 13 "North") |
| Registry.CompassCapitalized | app.py:89 | each direction spelled in the tables capitalizes to its compass word |
| Registry.AllowedNamesAreLowerCase | app.py:9-31 | every alias is already in lower case, so lower-casing the list changes nothing |
| Registry.AliasesDisjoint | app.py:9-31 | a name listed for one page is listed for no other page |
| Matcher.Accepts | app.py:70-72 | `f.name.lower() in allowed`: the name's lower-case form equals the lower-case form of some allowed name |
| Matcher.FirstMatch | app.py:69-74 | the first upload in upload order whose lower-cased name is an allowed lower-cased name; None exactly when no upload matches |
| Matcher.FindFile | app.py:69-74 | the loop with early return finds the first match, finds None exactly when nothing matches, and equals `FirstMatch` |
| Matcher.FirstMatchSkipsRejected | app.py:71-73 | uploads that do not match can be put in front without changing which upload is found |
| Matcher.FirstMatchPrefers | app.py:71-73 | a matching upload in first position is the one found |
| Matcher.AcceptsIgnoresCase | app.py:70-72 | whether a name matches depends only on its lower-case form |
| Matcher.AcceptsPage | app.py:70-72 | on the shipped tables a name matches a page exactly when its lower-case form is one of the page's names |
| Matcher.AcceptedByOnePage | app.py:9-31 | a file name matches at most one page |
| Matcher.NoPageListsNearMisses | app.py:9-31 | no page lists `launcher_east.jpg` or `launcher east.png` |
| Matcher.WholeNameMatching | app.py:70-72 | "Launcher East.JPG" fills page 2; "launcher_east.jpg" and "launcher east.png" fill no page |
| Matcher.FilledBySameUploads | app.py:71-74 | whether some upload matches depends only on which uploads occur, not on their order nor on how often each occurs (`[a]` and `[a, a]` alike) |
| Matcher.FilledReordered | app.py:71-74 | whether some upload matches does not depend on the order of the uploads, duplicates included |
| Matcher.FirstMatchReordered | app.py:71-73 | when at most one distinct upload matches, permuting the uploads finds the same upload |
| Assembly.TemplatePageIndex | app.py:36 | index 1 exactly when the document has more than one page, else 0; always a valid page of a non-empty document |
| Assembly.ExtractTemplate | app.py:33-38 | succeeds exactly when the document has a page, and then rasterises the page `TemplatePageIndex` chooses; otherwise fails with `TemplateHasNoPage` |
| Assembly.Title | app.py:90 | the caption `f"Launcher {direction}"` (and `f"Receiver {direction}"`, line 104): the device word, one space, the direction word, and nothing else |
| Assembly.SlotOutcome | app.py:82-92 | one iteration of either loop as a value; it has no contract of its own, and what it yields is stated by `ReportFacts.SlotOutcomeOk` and `ReportFacts.SlotOutcomeErr` |
| Assembly.Outcomes | app.py:81-106 | the 18 iterations in page order: entry k is the outcome of page k + 1 |
| Assembly.Collect | app.py:81-106 | the pages of all slots when every slot succeeds; an error exactly when some slot raised |
| Assembly.CollectFirstError | app.py:83-98 | the exception reported is the one of the first slot that raised |
| Assembly.CollectErrorHasFirst | app.py:83-98 | every failure comes from a slot all of whose predecessors produced their page |
| Assembly.MakeSlotPage | app.py:82-92 | one loop iteration: missing file error, full page on the device's first page, otherwise the caption from the first alias and, with the font, a directional page |
| Assembly.AppendDevicePages | app.py:81-106 | one `enumerate` loop: on success the pages appended are those of the device's slots in table order after the earlier ones; on failure the error is that of a slot whose predecessors all succeeded |
| Assembly.Report | app.py:76-111 | what `generate_report` returns or raises: the template error when the document has no page; otherwise, on success, exactly 18 pages |
| Assembly.GenerateReport | app.py:76-111 | `generate_report` computes exactly `Report`: template first, then the launcher loop, then the receiver loop |
| ReportFacts.SlotOutcomeOk | app.py:82-106 | a slot yields a page exactly when its file is found and, for a captioned page, the font is present; the page then shows the found upload, is a full page exactly on the device's first page, and otherwise carries the background, the job name and the device and compass caption |
| ReportFacts.SlotOutcomeErr | app.py:83-106 | a slot fails only with its own missing-file error (its list matched nothing) or with the font error on a captioned page whose file was found |
| ReportFacts.ReportSucceeds | app.py:76-111 | generation succeeds exactly when the template has a page, the font is present and every one of the 18 pages has a matching upload |
| ReportFacts.ReportLayout | app.py:81-106 | on success there are exactly 18 pages, every page has its file, and page k is exactly what slot k yields |
| ReportFacts.ReportPages | app.py:85-106 | full-image pages are exactly pages 1 and 10; every other page carries the job name, the template background and the caption "Launcher"/"Receiver" plus its compass word |
| ReportFacts.ReportPageFits | app.py:82-96 | every page shows one of the uploads, and one whose name its slot accepts |
| ReportFacts.ReportCaptionExamples | app.py:89-104 | page 3 is captioned "Launcher Northeast" and page 13 "Receiver North" |
| ReportFacts.ReportFilesDistinct | app.py:82-96 | no upload appears on two pages, although `find_file` never removes one from the pool |
| ReportFacts.ReportLayoutFixed | app.py:81-106 | the kind and caption of every page are the same whatever the uploads and their order |
| ReportFacts.ReportReordered | app.py:71-106 | when each page is matched by at most one distinct upload, permuting the uploads gives the identical report or the identical error |
| ReportFacts.SlotOutcomeReordered | app.py:82-92 | permuting the uploads changes neither whether a slot succeeds nor the exception it raises |
| ReportFacts.OutcomeKindReordered | app.py:76-106 | permuting the uploads changes neither whether generation succeeds nor the exception it raises, with no assumption on how many uploads match a page |
| ReportFacts.ReportTemplateError | app.py:36-77 | the template error happens exactly when the document has no page |
| ReportFacts.ReportMissingFile | app.py:83-98 | a missing-file error names a page and its accepted names; nothing matches that page, and every earlier page had its file |
| ReportFacts.ReportFailsAtFirstGap | app.py:83-98 | conversely the lowest page without a file is the one reported, unless a missing font stops generation first |
| ReportFacts.ReportFontError | app.py:46-57 | a missing font fails generation exactly when the template has a page and pages 1 and 2 both have their files |
| App.InputGuard | app.py:123 | generation is attempted exactly when the job name is non-empty, a template is given and exactly 18 images are given |
| App.OnGenerate | app.py:121-130 | failing the guard shows the input error and nothing else; passing it shows the report for download or the error `generate_report` raised |
| App.ShownFilesDistinct | app.py:82-96 | a successful report shows 18 pairwise distinct uploads, all from the input |
| App.GuardedSuccessUsesEveryUpload | app.py:123-126 | after the guard, a successful report uses every one of the 18 uploads |
| App.OnItsOwnPage | app.py:82-96 | after the guard and a successful report, an upload a page accepts is the upload shown on that page |
| App.GuardedSuccessIsUnique | app.py:123-126 | after the guard, a successful report leaves no page that two different uploads match |
| App.GuardedReportReordered | app.py:121-126 | after the guard, permuting the uploads gives the identical report or the identical error |
| App.GuardIsNotEnough | app.py:123-126 | 18 copies of `launcher.jpg` pass the guard, yet generation raises the missing-file error for page 2 |

## Left out

- Streamlit widgets and banners, app.py:113-130: only the control flow of the button handler is modelled (`App.OnGenerate`). The screen outcome replaces the widgets.
- Image decoding, RGB conversion, resizing, pasting and text drawing, app.py:40-44 and 53-67: PIL is a foreign library, so page contents are opaque and a page records which upload, background, job name and caption it shows. An upload that PIL cannot decode is not modelled.
- PDF rasterisation and merging, app.py:33-38, 78 and 108-111: PyMuPDF and PyPDF2 are foreign libraries. The merger is the `seq<Page>` the loops append to. Rasterisation keeps only the page-index rule and the empty-document failure.
- Font lookup, app.py:46-51: filesystem existence checks become the parameter `fontAvailable`.
- Pixel geometry, app.py:59-63: floating-point layout with no contract of its own.
- Text.Lower: ASCII only. Python's `.lower()` and `.capitalize()` also map non-ASCII letters.
- Text.Words: treats only ASCII whitespace as separators, not non-ASCII Unicode whitespace.
- The text of exception messages: a missing-file error carries the device, page index and allowed names it would format, not the formatted string.
- Assembly.SlotOutcome: has no contract of its own; `ReportFacts.SlotOutcomeOk` and `ReportFacts.SlotOutcomeErr` state what it yields. It states no IndexError from the caption derivation, because `Registry.DirectionWordOfPage` proves that the derivation succeeds on every directional page of the shipped tables.
- Registry.DirectionWord: its own contract says only when a caption word exists. Which word it is, is stated by `Registry.DirectionWordOf` and `Registry.DirectionWordOfPage`.
- Text.Words: its own contract says only that the words are non-empty and contain no whitespace. The splitting the caption relies on is stated by `Text.WordsOfTwo`.
- Text.RemoveJpg: its own contract states only the length bound, not that every occurrence of `.jpg` is removed; the one use the caption makes of it is stated by `Text.RemoveJpgSuffix`.
