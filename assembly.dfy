/**
 * `generate_report`: extract the template background, then walk pages 1 to 9
 * (launcher) and 10 to 18 (receiver), appending one page per slot and
 * raising at the first slot that cannot be filled.
 */
module Assembly {
  import opened Wrappers
  import opened Registry
  import opened Matcher

  /** A template PDF: its number of pages and an opaque stand-in for its bytes. */
  datatype TemplateDoc = TemplateDoc(pageCount: nat, content: nat)

  /** The rasterised template page shared by every directional page. */
  datatype Background = Background(template: nat, page: nat)

  /** One page appended to the merged PDF. */
  datatype Page =
    | FullPage(file: Upload)
    | DirectionalPage(background: Background, jobName: string, title: string, file: Upload)

  /** The exceptions `generate_report` can raise inside this model. */
  datatype ReportError =
    | TemplateHasNoPage
    | MissingFile(device: Device, page: nat, allowed: seq<string>)
    | FontNotFound

  /** The page of the template used as background: the second one when there is one, else the first. */
  function TemplatePageIndex(pageCount: nat): (index: nat)
    ensures index == 1 <==> pageCount >= 2
    ensures index == 0 <==> pageCount < 2
    ensures pageCount > 0 ==> index < pageCount
  {
    if pageCount > 1 then 1 else 0
  }

  /** The page of `t` that `extract_template_image` rasterises. */
  function TemplateBackground(t: TemplateDoc): (bg: Background)
    ensures bg.template == t.content && bg.page == TemplatePageIndex(t.pageCount)
  {
    Background(t.content, TemplatePageIndex(t.pageCount))
  }

  /** `extract_template_image`; loading a page of an empty document fails. */
  function ExtractTemplate(t: TemplateDoc): (r: Result<Background, ReportError>)
    ensures r.Ok? <==> t.pageCount > 0
    ensures r.Ok? ==> r.value.template == t.content && r.value.page == TemplatePageIndex(t.pageCount)
    ensures r.Err? ==> r.error == TemplateHasNoPage
  {
    if TemplatePageIndex(t.pageCount) < t.pageCount then Ok(TemplateBackground(t)) else Err(TemplateHasNoPage)
  }

  /** The caption of a directional page: the device word, a space, the direction word. */
  function Title(d: Device, direction: string): (t: string)
    ensures |t| == |DeviceName(d)| + 1 + |direction|
    ensures t[..|DeviceName(d)|] == DeviceName(d) && t[|DeviceName(d)|] == ' '
    ensures t[|DeviceName(d)| + 1..] == direction
  {
    DeviceName(d) + " " + direction
  }

  /**
   * What one iteration of the slot loops produces for `page`: a page, or the
   * exception it raises. The caption is the page's compass direction, which
   * is what the source's string derivation yields on these tables
   * (Registry.DirectionWordOfPage).
   */
  function SlotOutcome(jobName: string, files: seq<Upload>, bg: Background, fontAvailable: bool, page: int): Result<Page, ReportError>
    requires IsPage(page)
  {
    var d := DeviceOf(page);
    var allowed := AllowedNames(page);
    match FirstMatch(files, allowed)
    case None => Err(MissingFile(d, page, allowed))
    case Some(j) =>
      if page == FirstPage(d) then Ok(FullPage(files[j]))
      else if !fontAvailable then Err(FontNotFound)
      else Ok(DirectionalPage(bg, jobName, Title(d, CompassOf(page)), files[j]))
  }

  /** The outcomes of the 18 iterations, in page order. */
  function Outcomes(jobName: string, files: seq<Upload>, bg: Background, fontAvailable: bool): (outs: seq<Result<Page, ReportError>>)
    ensures |outs| == PageCount
    ensures forall k :: 0 <= k < PageCount ==> outs[k] == SlotOutcome(jobName, files, bg, fontAvailable, k + 1)
  {
    seq(PageCount, k requires 0 <= k < PageCount => SlotOutcome(jobName, files, bg, fontAvailable, k + 1))
  }

  /** All the pages when every step succeeded, otherwise the first step's exception. */
  function Collect(outs: seq<Result<Page, ReportError>>): (r: Result<seq<Page>, ReportError>)
    ensures r.Ok? <==> forall k :: 0 <= k < |outs| ==> outs[k].Ok?
    ensures r.Ok? ==> |r.value| == |outs| && forall k :: 0 <= k < |outs| ==> outs[k] == Ok(r.value[k])
  {
    if outs == [] then Ok([])
    else if outs[0].Err? then Err(outs[0].error)
    else
      match Collect(outs[1..])
      case Err(e) => Err(e)
      case Ok(rest) => Ok([outs[0].value] + rest)
  }

  /** The exception of the first failing step is the one reported. */
  lemma {:induction false} CollectFirstError(outs: seq<Result<Page, ReportError>>, k: nat)
    requires k < |outs| && outs[k].Err?
    requires forall j :: 0 <= j < k ==> outs[j].Ok?
    ensures Collect(outs) == Err(outs[k].error)
  {
    if k > 0 {
      CollectFirstError(outs[1..], k - 1);
    }
  }

  /** A failure always comes from a step whose predecessors all succeeded. */
  lemma {:induction false} CollectErrorHasFirst(outs: seq<Result<Page, ReportError>>)
    requires Collect(outs).Err?
    ensures exists k :: 0 <= k < |outs| && outs[k] == Err(Collect(outs).error) && forall j :: 0 <= j < k ==> outs[j].Ok?
  {
    if outs[0].Err? {
      assert outs[0] == Err(Collect(outs).error);
    } else {
      CollectErrorHasFirst(outs[1..]);
      var k :| 0 <= k < |outs[1..]| && outs[1..][k] == Err(Collect(outs[1..]).error) && forall j :: 0 <= j < k ==> outs[1..][j].Ok?;
      assert outs[k + 1] == Err(Collect(outs).error);
      assert forall j :: 0 <= j < k + 1 ==> outs[j].Ok? by {
        forall j | 0 <= j < k + 1 ensures outs[j].Ok? {
          if j > 0 { assert outs[j] == outs[1..][j - 1]; }
        }
      }
    }
  }

  /** Two runs whose steps succeed together, and fail with the same exception, end the same way. */
  lemma CollectSameFailures(o1: seq<Result<Page, ReportError>>, o2: seq<Result<Page, ReportError>>)
    requires |o1| == |o2|
    requires forall k :: 0 <= k < |o1| ==> (o1[k].Ok? <==> o2[k].Ok?) && (o1[k].Err? ==> o2[k] == o1[k])
    ensures Collect(o1).Ok? <==> Collect(o2).Ok?
    ensures Collect(o1).Err? ==> Collect(o2) == Collect(o1)
  {
    if Collect(o1).Err? {
      CollectErrorHasFirst(o1);
      var k :| 0 <= k < |o1| && o1[k] == Err(Collect(o1).error) && forall j :: 0 <= j < k ==> o1[j].Ok?;
      CollectFirstError(o2, k);
    }
  }

  /** The whole of `generate_report`, as a value. */
  function Report(jobName: string, files: seq<Upload>, template: TemplateDoc, fontAvailable: bool): (r: Result<seq<Page>, ReportError>)
    ensures template.pageCount == 0 ==> r == Err(TemplateHasNoPage)
    ensures r.Ok? ==> |r.value| == PageCount
  {
    match ExtractTemplate(template)
    case Err(e) => Err(e)
    case Ok(bg) => Collect(Outcomes(jobName, files, bg, fontAvailable))
  }

  /**
   * The body of both slot loops for page `idx` of device `d`: find the file,
   * then make a full page (the device's first page) or a captioned one.
   */
  method MakeSlotPage(jobName: string, allImages: seq<Upload>, templateImg: Background, fontAvailable: bool,
                      d: Device, idx: int, allowedNames: seq<string>)
    returns (r: Result<Page, ReportError>)
    requires IsPage(idx) && d == DeviceOf(idx) && allowedNames == AllowedNames(idx)
    ensures r == SlotOutcome(jobName, allImages, templateImg, fontAvailable, idx)
  {
    var f := FindFile(allImages, allowedNames);
    if f.None? {
      return Err(MissingFile(d, idx, allowedNames));
    }
    if idx == FirstPage(d) {
      return Ok(FullPage(allImages[f.value]));
    }
    FullViewIsFirstOfDevice(idx);
    DirectionWordOfPage(idx);
    var direction := DirectionWord(allowedNames).value;
    var title := Title(d, direction);
    if !fontAvailable {
      return Err(FontNotFound);
    }
    return Ok(DirectionalPage(templateImg, jobName, title, allImages[f.value]));
  }

  /** `pages` are the values of the first `|pages|` steps, all of which succeeded. */
  ghost predicate OkPrefix(outs: seq<Result<Page, ReportError>>, pages: seq<Page>)
  {
    |pages| <= |outs| && forall k :: 0 <= k < |pages| ==> outs[k] == Ok(pages[k])
  }

  lemma OkPrefixExtends(outs: seq<Result<Page, ReportError>>, pages: seq<Page>, p: Page)
    requires OkPrefix(outs, pages) && |pages| < |outs| && outs[|pages|] == Ok(p)
    ensures OkPrefix(outs, pages + [p])
  {
    var next := pages + [p];
    forall k | 0 <= k < |next| ensures outs[k] == Ok(next[k]) {
      if k < |pages| { assert next[k] == pages[k]; }
    }
  }

  /** The pages built so far are the outcomes of the first `|pages|` slots. */
  ghost predicate PrefixBuilt(jobName: string, files: seq<Upload>, bg: Background, fontAvailable: bool, pages: seq<Page>)
  {
    OkPrefix(Outcomes(jobName, files, bg, fontAvailable), pages)
  }

  /** Slot `page` raises `e`, and every earlier slot produced its page. */
  ghost predicate FailsAt(jobName: string, files: seq<Upload>, bg: Background, fontAvailable: bool, page: int, e: ReportError)
  {
    IsPage(page) && SlotOutcome(jobName, files, bg, fontAvailable, page) == Err(e) &&
    forall q :: 1 <= q < page ==> SlotOutcome(jobName, files, bg, fontAvailable, q).Ok?
  }

  lemma PrefixExtends(jobName: string, files: seq<Upload>, bg: Background, fontAvailable: bool, pages: seq<Page>, p: Page)
    requires PrefixBuilt(jobName, files, bg, fontAvailable, pages) && |pages| < PageCount
    requires SlotOutcome(jobName, files, bg, fontAvailable, |pages| + 1) == Ok(p)
    ensures PrefixBuilt(jobName, files, bg, fontAvailable, pages + [p])
  {
    OkPrefixExtends(Outcomes(jobName, files, bg, fontAvailable), pages, p);
  }

  lemma PrefixFailsAt(jobName: string, files: seq<Upload>, bg: Background, fontAvailable: bool, pages: seq<Page>, e: ReportError)
    requires PrefixBuilt(jobName, files, bg, fontAvailable, pages) && |pages| < PageCount
    requires SlotOutcome(jobName, files, bg, fontAvailable, |pages| + 1) == Err(e)
    ensures FailsAt(jobName, files, bg, fontAvailable, |pages| + 1, e)
  {
    var outs := Outcomes(jobName, files, bg, fontAvailable);
    forall q | 1 <= q < |pages| + 1 ensures SlotOutcome(jobName, files, bg, fontAvailable, q).Ok? {
      assert outs[q - 1] == Ok(pages[q - 1]);
    }
  }

  lemma PrefixBuiltIsReport(jobName: string, files: seq<Upload>, bg: Background, fontAvailable: bool, pages: seq<Page>)
    requires PrefixBuilt(jobName, files, bg, fontAvailable, pages) && |pages| == PageCount
    ensures Collect(Outcomes(jobName, files, bg, fontAvailable)) == Ok(pages)
  {
    var outs := Outcomes(jobName, files, bg, fontAvailable);
    assert forall k :: 0 <= k < |outs| ==> outs[k] == Ok(pages[k]);
    assert Collect(outs).value == pages;
  }

  lemma FailsAtIsReport(jobName: string, files: seq<Upload>, bg: Background, fontAvailable: bool, page: int, e: ReportError)
    requires FailsAt(jobName, files, bg, fontAvailable, page, e)
    ensures Collect(Outcomes(jobName, files, bg, fontAvailable)) == Err(e)
  {
    var outs := Outcomes(jobName, files, bg, fontAvailable);
    assert forall j :: 0 <= j < page - 1 ==> outs[j].Ok?;
    CollectFirstError(outs, page - 1);
  }

  /** A failed report failed at some slot whose predecessors all produced their pages. */
  lemma ReportErrorFailsAt(jobName: string, files: seq<Upload>, bg: Background, fontAvailable: bool)
    requires Collect(Outcomes(jobName, files, bg, fontAvailable)).Err?
    ensures exists page :: FailsAt(jobName, files, bg, fontAvailable, page, Collect(Outcomes(jobName, files, bg, fontAvailable)).error)
  {
    var outs := Outcomes(jobName, files, bg, fontAvailable);
    CollectErrorHasFirst(outs);
    var k :| 0 <= k < |outs| && outs[k] == Err(Collect(outs).error) && forall j :: 0 <= j < k ==> outs[j].Ok?;
    forall q | 1 <= q < k + 1 ensures SlotOutcome(jobName, files, bg, fontAvailable, q).Ok? {
      assert outs[q - 1].Ok?;
    }
    assert FailsAt(jobName, files, bg, fontAvailable, k + 1, Collect(outs).error);
  }

  /**
   * One of the two `enumerate` loops: walk device `d`'s table from its first
   * page, appending each page, or stop at the first exception.
   */
  method AppendDevicePages(jobName: string, allImages: seq<Upload>, templateImg: Background, fontAvailable: bool,
                           d: Device, merger: seq<Page>)
    returns (r: Result<seq<Page>, ReportError>)
    requires |merger| == FirstPage(d) - 1 && PrefixBuilt(jobName, allImages, templateImg, fontAvailable, merger)
    ensures r.Ok? ==> |r.value| == FirstPage(d) - 1 + |Order(d)| && PrefixBuilt(jobName, allImages, templateImg, fontAvailable, r.value)
    ensures r.Err? ==> exists page :: FailsAt(jobName, allImages, templateImg, fontAvailable, page, r.error)
  {
    var order := Order(d);
    var start := FirstPage(d);
    var pages := merger;
    for i := 0 to |order|
      invariant |pages| == start - 1 + i
      invariant PrefixBuilt(jobName, allImages, templateImg, fontAvailable, pages)
    {
      var idx := start + i;
      SlotOfDevice(d, i);
      var page := MakeSlotPage(jobName, allImages, templateImg, fontAvailable, d, idx, order[i]);
      if page.Err? {
        PrefixFailsAt(jobName, allImages, templateImg, fontAvailable, pages, page.error);
        return Err(page.error);
      }
      PrefixExtends(jobName, allImages, templateImg, fontAvailable, pages, page.value);
      pages := pages + [page.value];
    }
    return Ok(pages);
  }

  /**
   * `generate_report`: the launcher loop, then the receiver loop, both
   * appending to one merger, with `find_file` called afresh for every slot on
   * the same list of uploads.
   */
  method GenerateReport(jobName: string, allImages: seq<Upload>, templatePdf: TemplateDoc, fontAvailable: bool)
    returns (r: Result<seq<Page>, ReportError>)
    ensures r == Report(jobName, allImages, templatePdf, fontAvailable)
  {
    var templateImg: Background;
    match ExtractTemplate(templatePdf) {
      case Err(e) => return Err(e);
      case Ok(bg) => templateImg := bg;
    }
    var merger: seq<Page> := [];

    // Launcher pages
    var launcher := AppendDevicePages(jobName, allImages, templateImg, fontAvailable, Launcher, merger);
    if launcher.Err? {
      ghost var page :| FailsAt(jobName, allImages, templateImg, fontAvailable, page, launcher.error);
      FailsAtIsReport(jobName, allImages, templateImg, fontAvailable, page, launcher.error);
      return Err(launcher.error);
    }
    merger := launcher.value;

    // Receiver pages
    var receiver := AppendDevicePages(jobName, allImages, templateImg, fontAvailable, Receiver, merger);
    if receiver.Err? {
      ghost var page :| FailsAt(jobName, allImages, templateImg, fontAvailable, page, receiver.error);
      FailsAtIsReport(jobName, allImages, templateImg, fontAvailable, page, receiver.error);
      return Err(receiver.error);
    }
    merger := receiver.value;
    PrefixBuiltIsReport(jobName, allImages, templateImg, fontAvailable, merger);
    return Ok(merger);
  }
}
