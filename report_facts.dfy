/** What the assembled report is, in terms of the page layout and the uploads. */
module ReportFacts {
  import opened Wrappers
  import opened Registry
  import opened Matcher
  import opened Assembly

  /** Every page of the report has an upload that fills it. */
  predicate AllPagesFilled(files: seq<Upload>)
  {
    forall page :: 1 <= page <= PageCount ==> FirstMatch(files, AllowedNames(page)).Some?
  }

  /** One slot yields a page exactly when its file is there and, for a captioned page, the font is. */
  lemma SlotOutcomeOk(jobName: string, files: seq<Upload>, bg: Background, fontAvailable: bool, page: int)
    requires IsPage(page)
    ensures SlotOutcome(jobName, files, bg, fontAvailable, page).Ok?
        <==> FirstMatch(files, AllowedNames(page)).Some? && (IsFullView(page) || fontAvailable)
    ensures var o := SlotOutcome(jobName, files, bg, fontAvailable, page);
      o.Ok? ==>
        && o.value.file == files[FirstMatch(files, AllowedNames(page)).value]
        && (o.value.FullPage? <==> IsFullView(page))
        && (o.value.DirectionalPage? ==>
              o.value.background == bg && o.value.jobName == jobName
              && o.value.title == Title(DeviceOf(page), CompassOf(page)))
  {
    FullViewIsFirstOfDevice(page);
  }

  /** A slot's own failure: its file is missing, or the font is, for a captioned page. */
  lemma SlotOutcomeErr(jobName: string, files: seq<Upload>, bg: Background, fontAvailable: bool, page: int)
    requires IsPage(page)
    ensures var o := SlotOutcome(jobName, files, bg, fontAvailable, page);
      o.Err? ==>
        (o.error == MissingFile(DeviceOf(page), page, AllowedNames(page)) && FirstMatch(files, AllowedNames(page)).None?) ||
        (o.error == FontNotFound && !fontAvailable && !IsFullView(page) && FirstMatch(files, AllowedNames(page)).Some?)
  {
    FullViewIsFirstOfDevice(page);
  }

  /** Generation succeeds exactly when the template has a page, the font is there and every page is filled. */
  lemma ReportSucceeds(jobName: string, files: seq<Upload>, template: TemplateDoc, fontAvailable: bool)
    ensures Report(jobName, files, template, fontAvailable).Ok?
        <==> template.pageCount > 0 && fontAvailable && AllPagesFilled(files)
  {
    if template.pageCount > 0 {
      var bg := TemplateBackground(template);
      var outs := Outcomes(jobName, files, bg, fontAvailable);
      if fontAvailable && AllPagesFilled(files) {
        forall k | 0 <= k < PageCount ensures outs[k].Ok? {
          SlotOutcomeOk(jobName, files, bg, fontAvailable, k + 1);
        }
      }
      if Collect(outs).Ok? {
        forall page | 1 <= page <= PageCount ensures FirstMatch(files, AllowedNames(page)).Some? {
          assert outs[page - 1].Ok?;
          SlotOutcomeOk(jobName, files, bg, fontAvailable, page);
        }
        assert outs[1].Ok?;
        SlotOutcomeOk(jobName, files, bg, fontAvailable, 2);
      }
    }
  }

  /**
   * On success the report has exactly 18 pages, page k being the page the
   * layout prescribes for slot k: pages 1 to 9 from the launcher table,
   * 10 to 18 from the receiver table.
   */
  lemma ReportLayout(jobName: string, files: seq<Upload>, template: TemplateDoc, fontAvailable: bool)
    requires Report(jobName, files, template, fontAvailable).Ok?
    ensures var pages := Report(jobName, files, template, fontAvailable).value;
      && |pages| == PageCount
      && AllPagesFilled(files)
      && forall page :: 1 <= page <= PageCount ==>
           SlotOutcome(jobName, files, TemplateBackground(template), fontAvailable, page) == Ok(pages[page - 1])
  {
    ReportSucceeds(jobName, files, template, fontAvailable);
    var bg := TemplateBackground(template);
    var outs := Outcomes(jobName, files, bg, fontAvailable);
    forall page | 1 <= page <= PageCount {
      SlotOutcomeOk(jobName, files, bg, fontAvailable, page);
    }
  }

  /**
   * The same layout, point by point: full-image pages are exactly pages 1
   * and 10, and every other page carries its device and direction as caption.
   */
  lemma ReportPages(jobName: string, files: seq<Upload>, template: TemplateDoc, fontAvailable: bool, page: int)
    requires Report(jobName, files, template, fontAvailable).Ok?
    requires 1 <= page <= PageCount
    ensures var pages := Report(jobName, files, template, fontAvailable).value;
      && |pages| == PageCount
      && (pages[page - 1].FullPage? <==> IsFullView(page))
      && (pages[page - 1].DirectionalPage? ==>
            pages[page - 1].title == Title(DeviceOf(page), CompassOf(page))
            && pages[page - 1].jobName == jobName
            && pages[page - 1].background == TemplateBackground(template))
  {
    ReportLayout(jobName, files, template, fontAvailable);
  }

  /** Every page shows one of the uploads, and one whose name its slot accepts. */
  lemma ReportPageFits(jobName: string, files: seq<Upload>, template: TemplateDoc, fontAvailable: bool, page: int)
    requires Report(jobName, files, template, fontAvailable).Ok?
    requires 1 <= page <= PageCount
    ensures var pages := Report(jobName, files, template, fontAvailable).value;
      && |pages| == PageCount
      && pages[page - 1].file in files
      && Accepts(AllowedNames(page), pages[page - 1].file.name)
  {
    ReportLayout(jobName, files, template, fontAvailable);
  }

  lemma CaptionsOfPages3And13()
    ensures Title(DeviceOf(3), CompassOf(3)) == "Launcher Northeast"
    ensures Title(DeviceOf(13), CompassOf(13)) == "Receiver North"
  {
  }

  /** For instance, page 3 is captioned "Launcher Northeast" and page 13 "Receiver North". */
  lemma ReportCaptionExamples(jobName: string, files: seq<Upload>, template: TemplateDoc, fontAvailable: bool)
    requires Report(jobName, files, template, fontAvailable).Ok?
    ensures Report(jobName, files, template, fontAvailable).value[2].title == "Launcher Northeast"
    ensures Report(jobName, files, template, fontAvailable).value[12].title == "Receiver North"
  {
    CaptionsOfPages3And13();
    ReportPages(jobName, files, template, fontAvailable, 3);
    ReportPages(jobName, files, template, fontAvailable, 13);
  }

  /** Although `find_file` never removes an upload, no upload appears on two pages. */
  lemma ReportFilesDistinct(jobName: string, files: seq<Upload>, template: TemplateDoc, fontAvailable: bool, i: int, j: int)
    requires Report(jobName, files, template, fontAvailable).Ok?
    requires 0 <= i < PageCount && 0 <= j < PageCount && i != j
    ensures Report(jobName, files, template, fontAvailable).value[i].file
         != Report(jobName, files, template, fontAvailable).value[j].file
  {
    var pages := Report(jobName, files, template, fontAvailable).value;
    ReportPageFits(jobName, files, template, fontAvailable, i + 1);
    ReportPageFits(jobName, files, template, fontAvailable, j + 1);
    if pages[i].file == pages[j].file {
      AcceptedByOnePage(i + 1, j + 1, pages[i].file.name);
    }
  }

  /** Neither the kind nor the caption of any page depends on the uploads or their order. */
  lemma ReportLayoutFixed(jobName: string, f1: seq<Upload>, f2: seq<Upload>, template: TemplateDoc, fontAvailable: bool, k: int)
    requires Report(jobName, f1, template, fontAvailable).Ok?
    requires Report(jobName, f2, template, fontAvailable).Ok?
    requires 0 <= k < PageCount
    ensures var p1, p2 := Report(jobName, f1, template, fontAvailable).value, Report(jobName, f2, template, fontAvailable).value;
      |p1| == |p2| && p1[k].FullPage? == p2[k].FullPage? && (p1[k].DirectionalPage? ==> p1[k].title == p2[k].title)
  {
    ReportPages(jobName, f1, template, fontAvailable, k + 1);
    ReportPages(jobName, f2, template, fontAvailable, k + 1);
  }

  /**
   * When each page is accepted by only one upload, reordering the uploads
   * gives the same report, page for page, and the same error otherwise.
   */
  lemma ReportReordered(jobName: string, f1: seq<Upload>, f2: seq<Upload>, template: TemplateDoc, fontAvailable: bool)
    requires multiset(f1) == multiset(f2)
    requires forall page :: 1 <= page <= PageCount ==> UniqueAccepted(f1, AllowedNames(page))
    ensures Report(jobName, f1, template, fontAvailable) == Report(jobName, f2, template, fontAvailable)
  {
    if template.pageCount > 0 {
      var bg := TemplateBackground(template);
      var o1, o2 := Outcomes(jobName, f1, bg, fontAvailable), Outcomes(jobName, f2, bg, fontAvailable);
      forall k | 0 <= k < PageCount ensures o1[k] == o2[k] {
        FilledReordered(f1, f2, AllowedNames(k + 1));
        FirstMatchReordered(f1, f2, AllowedNames(k + 1));
      }
      assert o1 == o2;
    }
  }

  /** Whether one slot succeeds, and with which error it fails, does not depend on the upload order. */
  lemma SlotOutcomeReordered(jobName: string, f1: seq<Upload>, f2: seq<Upload>, bg: Background, fontAvailable: bool, page: int)
    requires multiset(f1) == multiset(f2)
    requires IsPage(page)
    ensures SlotOutcome(jobName, f1, bg, fontAvailable, page).Ok? <==> SlotOutcome(jobName, f2, bg, fontAvailable, page).Ok?
    ensures SlotOutcome(jobName, f1, bg, fontAvailable, page).Err?
        ==> SlotOutcome(jobName, f2, bg, fontAvailable, page) == SlotOutcome(jobName, f1, bg, fontAvailable, page)
  {
    FilledReordered(f1, f2, AllowedNames(page));
    SlotOutcomeOk(jobName, f1, bg, fontAvailable, page);
    SlotOutcomeOk(jobName, f2, bg, fontAvailable, page);
    SlotOutcomeErr(jobName, f1, bg, fontAvailable, page);
    SlotOutcomeErr(jobName, f2, bg, fontAvailable, page);
  }

  /**
   * Whether generation succeeds, and the exception it raises when it does
   * not, depend only on which uploads there are, not on their order; no
   * page needs to have a single matching upload for this.
   */
  lemma OutcomeKindReordered(jobName: string, f1: seq<Upload>, f2: seq<Upload>, template: TemplateDoc, fontAvailable: bool)
    requires multiset(f1) == multiset(f2)
    ensures Report(jobName, f1, template, fontAvailable).Ok? <==> Report(jobName, f2, template, fontAvailable).Ok?
    ensures Report(jobName, f1, template, fontAvailable).Err?
        ==> Report(jobName, f2, template, fontAvailable) == Report(jobName, f1, template, fontAvailable)
  {
    if template.pageCount > 0 {
      var bg := TemplateBackground(template);
      var o1, o2 := Outcomes(jobName, f1, bg, fontAvailable), Outcomes(jobName, f2, bg, fontAvailable);
      forall k | 0 <= k < PageCount ensures (o1[k].Ok? <==> o2[k].Ok?) && (o1[k].Err? ==> o2[k] == o1[k]) {
        SlotOutcomeReordered(jobName, f1, f2, bg, fontAvailable, k + 1);
      }
      CollectSameFailures(o1, o2);
    }
  }

  /** A template without pages fails generation before any slot is looked at. */
  lemma ReportTemplateError(jobName: string, files: seq<Upload>, template: TemplateDoc, fontAvailable: bool)
    ensures Report(jobName, files, template, fontAvailable) == Err(TemplateHasNoPage) <==> template.pageCount == 0
  {
    var bg := TemplateBackground(template);
    if template.pageCount > 0 && Collect(Outcomes(jobName, files, bg, fontAvailable)).Err? {
      ReportErrorFailsAt(jobName, files, bg, fontAvailable);
      var page :| FailsAt(jobName, files, bg, fontAvailable, page, Collect(Outcomes(jobName, files, bg, fontAvailable)).error);
      SlotOutcomeErr(jobName, files, bg, fontAvailable, page);
    }
  }

  /**
   * A missing-file error names a page whose list no upload matches, carries
   * that page's accepted names, and every earlier page had its file.
   */
  lemma ReportMissingFile(jobName: string, files: seq<Upload>, template: TemplateDoc, fontAvailable: bool,
                          d: Device, page: nat, allowed: seq<string>)
    requires Report(jobName, files, template, fontAvailable) == Err(MissingFile(d, page, allowed))
    ensures template.pageCount > 0
    ensures IsPage(page) && d == DeviceOf(page) && allowed == AllowedNames(page)
    ensures FirstMatch(files, allowed).None?
    ensures forall q :: 1 <= q < page ==> FirstMatch(files, AllowedNames(q)).Some?
  {
    var bg := TemplateBackground(template);
    ReportErrorFailsAt(jobName, files, bg, fontAvailable);
    var p :| FailsAt(jobName, files, bg, fontAvailable, p, MissingFile(d, page, allowed));
    SlotOutcomeErr(jobName, files, bg, fontAvailable, p);
    forall q | 1 <= q < page ensures FirstMatch(files, AllowedNames(q)).Some? {
      SlotOutcomeOk(jobName, files, bg, fontAvailable, q);
    }
  }

  /**
   * Conversely, the lowest page without a file is the one reported, unless
   * the font is missing and a captioned page came before it.
   */
  lemma ReportFailsAtFirstGap(jobName: string, files: seq<Upload>, template: TemplateDoc, fontAvailable: bool, page: int)
    requires template.pageCount > 0
    requires IsPage(page) && FirstMatch(files, AllowedNames(page)).None?
    requires forall q :: 1 <= q < page ==> FirstMatch(files, AllowedNames(q)).Some?
    requires fontAvailable || page <= 2
    ensures Report(jobName, files, template, fontAvailable) == Err(MissingFile(DeviceOf(page), page, AllowedNames(page)))
  {
    var bg := TemplateBackground(template);
    forall q | 1 <= q < page ensures SlotOutcome(jobName, files, bg, fontAvailable, q).Ok? {
      SlotOutcomeOk(jobName, files, bg, fontAvailable, q);
    }
    FailsAtIsReport(jobName, files, bg, fontAvailable, page, MissingFile(DeviceOf(page), page, AllowedNames(page)));
  }

  /** A missing font fails generation exactly when the first two pages have their files. */
  lemma ReportFontError(jobName: string, files: seq<Upload>, template: TemplateDoc, fontAvailable: bool)
    ensures Report(jobName, files, template, fontAvailable) == Err(FontNotFound)
        <==> template.pageCount > 0 && !fontAvailable
             && FirstMatch(files, AllowedNames(1)).Some? && FirstMatch(files, AllowedNames(2)).Some?
  {
    if template.pageCount > 0 {
      var bg := TemplateBackground(template);
      SlotOutcomeOk(jobName, files, bg, fontAvailable, 1);
      SlotOutcomeOk(jobName, files, bg, fontAvailable, 2);
      SlotOutcomeErr(jobName, files, bg, fontAvailable, 2);
      if !fontAvailable && FirstMatch(files, AllowedNames(1)).Some? && FirstMatch(files, AllowedNames(2)).Some? {
        FailsAtIsReport(jobName, files, bg, fontAvailable, 2, FontNotFound);
      }
      if Collect(Outcomes(jobName, files, bg, fontAvailable)) == Err(FontNotFound) {
        ReportErrorFailsAt(jobName, files, bg, fontAvailable);
        var p :| FailsAt(jobName, files, bg, fontAvailable, p, FontNotFound);
        SlotOutcomeErr(jobName, files, bg, fontAvailable, p);
      }
    }
  }
}
