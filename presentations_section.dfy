/**
 * app/components/PresentationsSection.tsx: the list of presentations and
 * the section's own copy of the day/month/year date formatter.
 */
module PresentationsSection {
  import opened Wrappers
  import opened JsText
  import DateUtils
  import DocumentsSection
  import UseInView

  datatype Presentation = Presentation(
    id: string,
    title: string,
    description: string,
    fileUrl: string,
    fileSize: string,
    dateAdded: string)

  /** The section's local `formatDate`: always day/month/year. */
  function FormatDate(date: DateUtils.DateValue): (r: string)
    ensures r == DateUtils.FormatDate(date, None)
    ensures r == DocumentsSection.FormatDate(date)
  {
    var day := PadStart(NumberToString(DateUtils.GetUtcDate(date)), 2, '0');
    var month := PadStart(NumberToString(DateUtils.PlusOne(DateUtils.GetUtcMonth(date))), 2, '0');
    var year := NumberToString(DateUtils.GetUtcFullYear(date));
    day + "/" + month + "/" + year
  }

  /** The options the section passes to `useInView`: the same as the documents section's. */
  const ViewOptions := UseInView.InViewOptions(Some(0.1), Some(true), None)

  /** The section's explicit options are the hook's defaults. */
  lemma ViewOptionsAreDefaults()
    ensures ViewOptions == DocumentsSection.ViewOptions
    ensures UseInView.Resolve(ViewOptions) == UseInView.Resolve(UseInView.NoOptions)
  {
  }

  /** The presentations the section lists. */
  const Presentations: seq<Presentation> := [
    Presentation("pres1", "Project Overview",
      "A comprehensive overview of our research project and goals",
      "/presentations/presentation1.pdf", "5.2 MB", "2025-01-20"),
    Presentation("pres2", "Interim Findings",
      "Presentation of interim research findings and progress update",
      "/presentations/presentation2.pdf", "4.7 MB", "2025-03-05"),
    Presentation("pres3", "Methodology Explanation",
      "Detailed explanation of research methodologies employed",
      "/presentations/presentation3.pdf", "3.9 MB", "2025-04-12")
  ]

  /** The list holds three presentations, pres1 to pres3 in order, so their ids are distinct. */
  lemma PresentationIds()
    ensures |Presentations| == 3
    ensures forall k :: 0 <= k < |Presentations| ==> Presentations[k].id == "pres" + [DigitChar(k + 1)]
    ensures forall i, j :: 0 <= i < j < |Presentations| ==> Presentations[i].id != Presentations[j].id
  {
    forall i, j | 0 <= i < j < |Presentations|
      ensures Presentations[i].id != Presentations[j].id
    {
      assert Presentations[i].id[4] != Presentations[j].id[4];
    }
  }

  /** The three copies of the formatter agree on every date; for an in-range date the text is DD/MM/YYYY. */
  lemma FormattersAgree(date: DateUtils.DateValue)
    ensures FormatDate(date) == DocumentsSection.FormatDate(date) == DateUtils.FormatDate(date, Some(DateUtils.Dmy))
    ensures DateUtils.InCalendarRange(date) ==>
      var r := FormatDate(date);
      && r[2] == '/' && r[5] == '/'
      && AllDigits(r[..2]) && DecimalValue(r[..2]) == date.day
      && AllDigits(r[3..5]) && DecimalValue(r[3..5]) == date.month0 + 1
      && r[6..] == IntToString(date.year)
  {
    if DateUtils.InCalendarRange(date) {
      DateUtils.DmyLayout(date);
    }
  }
}
