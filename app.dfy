/**
 * What the button handler decides: the input guard in front of
 * `generate_report`, and what the page then shows.
 */
module App {
  import opened Wrappers
  import opened Text
  import opened Registry
  import opened Matcher
  import opened Assembly
  import opened ReportFacts

  /** What the page shows after the button is pressed. */
  datatype Screen =
    | InputErrorShown
    | ErrorShown(error: ReportError)
    | DownloadOffered(report: seq<Page>)

  /**
   * The guard `not job_name or not template_pdf or not all_images or
   * len(all_images) != 18`, negated: generation is attempted only when it holds.
   */
  predicate InputGuard(jobName: string, templatePdf: Option<TemplateDoc>, allImages: Option<seq<Upload>>)
    ensures InputGuard(jobName, templatePdf, allImages)
        <==> jobName != [] && templatePdf.Some? && allImages.Some? && |allImages.value| == PageCount
  {
    !(jobName == [] || templatePdf.None? || allImages.None? || allImages.value == [] || |allImages.value| != 18)
  }

  /** The handler of the "Generate Report" button; any exception ends on the error banner. */
  method OnGenerate(jobName: string, templatePdf: Option<TemplateDoc>, allImages: Option<seq<Upload>>, fontAvailable: bool)
    returns (screen: Screen)
    ensures !InputGuard(jobName, templatePdf, allImages) <==> screen == InputErrorShown
    ensures InputGuard(jobName, templatePdf, allImages) ==>
      screen == match Report(jobName, allImages.value, templatePdf.value, fontAvailable)
                case Ok(pages) => DownloadOffered(pages)
                case Err(e) => ErrorShown(e)
  {
    if jobName == [] || templatePdf.None? || allImages.None? || allImages.value == [] || |allImages.value| != 18 {
      return InputErrorShown;
    }
    var report := GenerateReport(jobName, allImages.value, templatePdf.value, fontAvailable);
    match report {
      case Ok(pages) => return DownloadOffered(pages);
      case Err(e) => return ErrorShown(e);
    }
  }

  function Elements<T>(s: seq<T>): set<T>
  {
    set x | x in s
  }

  lemma {:induction false} ElementsBound<T>(s: seq<T>)
    ensures |Elements(s)| <= |s|
  {
    if s != [] {
      ElementsBound(s[1..]);
      assert Elements(s) == Elements(s[1..]) + {s[0]};
    }
  }

  lemma {:induction false} ElementsOfDistinct<T>(s: seq<T>)
    requires forall i, j :: 0 <= i < |s| && 0 <= j < |s| && i != j ==> s[i] != s[j]
    ensures |Elements(s)| == |s|
  {
    if s != [] {
      ElementsOfDistinct(s[1..]);
      assert Elements(s) == Elements(s[1..]) + {s[0]};
      assert s[0] !in Elements(s[1..]);
    }
  }

  lemma SubsetOfSameSize<T>(a: set<T>, b: set<T>)
    requires a <= b && |b| <= |a|
    ensures a == b
  {
    if a != b {
      var x :| x in b && x !in a;
      assert a <= b - {x};
      assert |a| <= |b - {x}| by {
        var c := b - {x};
        assert a + (c - a) == c;
      }
    }
  }

  /** The uploads shown on the pages of a report, in page order. */
  function ShownFiles(pages: seq<Page>): (shown: seq<Upload>)
    ensures |shown| == |pages| && forall k :: 0 <= k < |pages| ==> shown[k] == pages[k].file
  {
    seq(|pages|, k requires 0 <= k < |pages| => pages[k].file)
  }

  /** A successful report shows 18 pairwise distinct uploads, each taken from the input. */
  lemma ShownFilesDistinct(jobName: string, images: seq<Upload>, template: TemplateDoc, fontAvailable: bool)
    requires Report(jobName, images, template, fontAvailable).Ok?
    ensures var shown := ShownFiles(Report(jobName, images, template, fontAvailable).value);
      && |shown| == PageCount
      && (forall a, b :: 0 <= a < |shown| && 0 <= b < |shown| && a != b ==> shown[a] != shown[b])
      && forall u :: u in shown ==> u in images
  {
    var pages := Report(jobName, images, template, fontAvailable).value;
    var shown := ShownFiles(pages);
    ReportLayout(jobName, images, template, fontAvailable);
    forall a, b | 0 <= a < |shown| && 0 <= b < |shown| && a != b ensures shown[a] != shown[b] {
      ReportFilesDistinct(jobName, images, template, fontAvailable, a, b);
    }
    forall u | u in shown ensures u in images {
      var k :| 0 <= k < |shown| && shown[k] == u;
      ReportPageFits(jobName, images, template, fontAvailable, k + 1);
    }
  }

  /**
   * With exactly 18 uploads, a report that succeeds uses every upload on
   * exactly one page: pages receive pairwise distinct uploads, and no
   * upload is left over.
   */
  lemma GuardedSuccessUsesEveryUpload(jobName: string, template: TemplateDoc, images: seq<Upload>, fontAvailable: bool, i: int)
    requires InputGuard(jobName, Some(template), Some(images))
    requires Report(jobName, images, template, fontAvailable).Ok?
    requires 0 <= i < |images|
    ensures exists k :: 0 <= k < PageCount && Report(jobName, images, template, fontAvailable).value[k].file == images[i]
  {
    var pages := Report(jobName, images, template, fontAvailable).value;
    var shown := ShownFiles(pages);
    ShownFilesDistinct(jobName, images, template, fontAvailable);
    ElementsOfDistinct(shown);
    ElementsBound(images);
    SubsetOfSameSize(Elements(shown), Elements(images));
    assert images[i] in Elements(shown);
    var k :| 0 <= k < |shown| && shown[k] == images[i];
    assert pages[k].file == images[i];
  }

  /**
   * Past the guard, a successful report leaves no page with two different
   * accepted uploads: all 18 uploads sit on distinct pages, and each name
   * is accepted by one page only.
   */
  lemma GuardedSuccessIsUnique(jobName: string, template: TemplateDoc, images: seq<Upload>, fontAvailable: bool, page: int)
    requires InputGuard(jobName, Some(template), Some(images))
    requires Report(jobName, images, template, fontAvailable).Ok?
    requires IsPage(page)
    ensures UniqueAccepted(images, AllowedNames(page))
  {
    forall i, j | 0 <= i < |images| && 0 <= j < |images|
        && Accepts(AllowedNames(page), images[i].name) && Accepts(AllowedNames(page), images[j].name)
      ensures images[i] == images[j]
    {
      OnItsOwnPage(jobName, template, images, fontAvailable, page, i);
      OnItsOwnPage(jobName, template, images, fontAvailable, page, j);
    }
  }

  /** An upload that `page` accepts is the one shown on `page`. */
  lemma OnItsOwnPage(jobName: string, template: TemplateDoc, images: seq<Upload>, fontAvailable: bool, page: int, i: int)
    requires InputGuard(jobName, Some(template), Some(images))
    requires Report(jobName, images, template, fontAvailable).Ok?
    requires IsPage(page) && 0 <= i < |images| && Accepts(AllowedNames(page), images[i].name)
    ensures Report(jobName, images, template, fontAvailable).value[page - 1].file == images[i]
  {
    var pages := Report(jobName, images, template, fontAvailable).value;
    GuardedSuccessUsesEveryUpload(jobName, template, images, fontAvailable, i);
    var k :| 0 <= k < PageCount && pages[k].file == images[i];
    ReportPageFits(jobName, images, template, fontAvailable, k + 1);
    AcceptedByOnePage(page, k + 1, images[i].name);
  }

  /** Past the guard, the order of the uploads never changes what the page shows. */
  lemma GuardedReportReordered(jobName: string, template: TemplateDoc, images: seq<Upload>, reordered: seq<Upload>, fontAvailable: bool)
    requires InputGuard(jobName, Some(template), Some(images))
    requires multiset(images) == multiset(reordered)
    ensures Report(jobName, reordered, template, fontAvailable) == Report(jobName, images, template, fontAvailable)
  {
    OutcomeKindReordered(jobName, images, reordered, template, fontAvailable);
    if Report(jobName, images, template, fontAvailable).Ok? {
      forall page | 1 <= page <= PageCount ensures UniqueAccepted(images, AllowedNames(page)) {
        GuardedSuccessIsUnique(jobName, template, images, fontAvailable, page);
      }
      ReportReordered(jobName, images, reordered, template, fontAvailable);
    }
  }

  /**
   * The guard counts uploads but does not look at their names: eighteen
   * copies of the full launcher view pass it, and generation then stops
   * at page 2.
   */
  lemma GuardIsNotEnough(jobName: string, template: TemplateDoc, fontAvailable: bool)
    requires jobName != [] && template.pageCount > 0
    ensures var images := seq(PageCount, _ => Upload("launcher.jpg", 0));
      InputGuard(jobName, Some(template), Some(images))
      && Report(jobName, images, template, fontAvailable) == Err(MissingFile(Launcher, 2, AllowedNames(2)))
  {
    var images := seq(PageCount, _ => Upload("launcher.jpg", 0));
    assert Lower("launcher.jpg") == "launcher.jpg";
    AcceptsPage(1, "launcher.jpg");
    AcceptsPage(2, "launcher.jpg");
    assert Accepts(AllowedNames(1), images[0].name);
    forall j | 0 <= j < |images| ensures !Accepts(AllowedNames(2), images[j].name) {
      assert images[j].name == "launcher.jpg";
    }
    forall q | 1 <= q < 2 ensures FirstMatch(images, AllowedNames(q)).Some? {
    }
    ReportFailsAtFirstGap(jobName, images, template, fontAvailable, 2);
  }
}
