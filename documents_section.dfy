/**
 * app/components/DocumentsSection.tsx: the list of project documents, the
 * section's own copy of the day/month/year date formatter, and the choice
 * of preview image for a document by its title.
 */
module DocumentsSection {
  import opened Wrappers
  import opened JsText
  import DateUtils
  import UseInView

  datatype IconType = Pdf | Doc | ImageFile | Zip | Other

  datatype Document = Document(
    id: string,
    title: string,
    description: string,
    fileUrl: string,
    fileSize: string,
    dateAdded: string,
    iconType: Option<IconType>)

  /** The six preview images imported from public/presentations. */
  datatype PreviewImage = CharterImage | ProposalImage | ResearchImage | FinalThesisImage | StatusImage | LogbookImage

  function FileName(image: PreviewImage): string {
    match image
    case CharterImage => "charter.png"
    case ProposalImage => "propre.png"
    case ResearchImage => "rp.png"
    case FinalThesisImage => "final.png"
    case StatusImage => "status.png"
    case LogbookImage => "lobook.png"
  }

  /** The image element a document is shown with: its source and its alt text. */
  datatype DocumentIcon = DocumentIcon(src: PreviewImage, alt: string)

  /** The titles the icon switch recognises, in the order of its cases. */
  const KnownTitles: seq<string> :=
    ["Project Charter", "Project Proposal", "Research Paper", "Final Thesis", "Status Document", "Research Logbook"]

  /** The image a recognised title is shown with, index for index with KnownTitles. */
  const KnownImages: seq<PreviewImage> :=
    [CharterImage, ProposalImage, ResearchImage, FinalThesisImage, StatusImage, LogbookImage]

  /** The section's local `formatDate`: always day/month/year. */
  function FormatDate(date: DateUtils.DateValue): (r: string)
    ensures r == DateUtils.FormatDate(date, None)
    ensures r == DateUtils.FormatDate(date, Some(DateUtils.Dmy))
  {
    var day := PadStart(NumberToString(DateUtils.GetUtcDate(date)), 2, '0');
    var month := PadStart(NumberToString(DateUtils.PlusOne(DateUtils.GetUtcMonth(date))), 2, '0');
    var year := NumberToString(DateUtils.GetUtcFullYear(date));
    day + "/" + month + "/" + year
  }

  /** `renderDocumentIcon(doc)`: the switch on the title, with its default case. */
  function RenderDocumentIcon(doc: Document): (icon: DocumentIcon)
    ensures forall k :: 0 <= k < |KnownTitles| && doc.title == KnownTitles[k] ==>
      icon == DocumentIcon(KnownImages[k], doc.title)
    ensures doc.title !in KnownTitles ==> icon == DocumentIcon(ResearchImage, "Document")
  {
    match doc.title
    case "Project Charter" => DocumentIcon(CharterImage, "Project Charter")
    case "Project Proposal" => DocumentIcon(ProposalImage, "Project Proposal")
    case "Research Paper" => DocumentIcon(ResearchImage, "Research Paper")
    case "Final Thesis" => DocumentIcon(FinalThesisImage, "Final Thesis")
    case "Status Document" => DocumentIcon(StatusImage, "Status Document")
    case "Research Logbook" => DocumentIcon(LogbookImage, "Research Logbook")
    case _ => DocumentIcon(ResearchImage, "Document")
  }

  /** The options the section passes to `useInView`. */
  const ViewOptions := UseInView.InViewOptions(Some(0.1), Some(true), None)

  /** The section's explicit options are the hook's defaults: a latch at threshold 0.1 with no root margin. */
  lemma ViewOptionsAreDefaults()
    ensures UseInView.Resolve(ViewOptions) == UseInView.Resolve(UseInView.NoOptions)
    ensures UseInView.Resolve(ViewOptions).triggerOnce
  {
  }

  /** The documents the section lists. */
  const Documents: seq<Document> := [
    Document("doc1", "Project Charter",
      "Formal document outlining the project scope, objectives, and participants",
      "https://drive.google.com/file/d/1DSNh1zQvkBV5hzxFLIvLH8AVCzZG3Q_B/view?usp=sharing",
      "1.8 MB", "2024-06-15", Some(Pdf)),
    Document("doc2", "Project Proposal",
      "Comprehensive proposal including research objectives, methodology, and expected outcomes",
      "https://drive.google.com/drive/folders/15e8T_M3xsftnPEgF4JeAzmC4RG96IeFe?usp=sharing",
      "3.2 MB", "2024-07-10", Some(Pdf)),
    Document("doc3", "Research Paper",
      "Published academic paper detailing our research findings and methodology",
      "https://drive.google.com/drive/folders/1MP0lkjkTBql907RkkVd5CU3ONlWPEjdu?usp=sharing",
      "2.5 MB", "2025-02-28", Some(Pdf)),
    Document("doc4", "Final Thesis",
      "Complete thesis document with comprehensive analysis and conclusions",
      "https://drive.google.com/drive/folders/1VNt9a2XGMTnMBOBwFD-4dBhbfr5MWWG8?usp=sharing",
      "5.7 MB", "2025-03-15", Some(Doc)),
    Document("doc5", "Status Document",
      "Current project status report with progress updates and milestone achievements",
      "https://drive.google.com/drive/folders/1tvgdab5ye24Nyi45M7pUa27Q1QG1_c72?usp=sharing",
      "1.5 MB", "2025-04-05", Some(Doc)),
    Document("doc6", "Research Logbook",
      "Detailed documentation of research activities, methodologies, and findings",
      "https://drive.google.com/drive/folders/1iRwy-Vzsjq91FzkXGJsP04_Vqj_FvTJ6?usp=sharing",
      "4.3 MB", "2025-04-12", Some(Zip))
  ]

  /** The six recognised titles each get an image of their own. */
  lemma KnownImagesDistinct()
    ensures |KnownTitles| == |KnownImages| == 6
    ensures forall i, j :: 0 <= i < j < |KnownImages| ==> KnownImages[i] != KnownImages[j]
    ensures forall i, j :: 0 <= i < j < |KnownImages| ==> FileName(KnownImages[i]) != FileName(KnownImages[j])
  {
  }

  /** The list holds six documents, doc1 to doc6 in order, so their ids are distinct. */
  lemma DocumentIds()
    ensures |Documents| == 6
    ensures forall k :: 0 <= k < |Documents| ==> Documents[k].id == "doc" + [DigitChar(k + 1)]
    ensures forall i, j :: 0 <= i < j < |Documents| ==> Documents[i].id != Documents[j].id
  {
    forall i, j | 0 <= i < j < |Documents|
      ensures Documents[i].id != Documents[j].id
    {
      assert Documents[i].id[3] != Documents[j].id[3];
    }
  }

  /** Every listed document is shown with its own image and its title as alt text; none reaches the default case. */
  lemma ListedDocumentsHaveOwnIcons()
    ensures forall k :: 0 <= k < |Documents| ==>
      RenderDocumentIcon(Documents[k]) == DocumentIcon(KnownImages[k], Documents[k].title)
  {
    forall k | 0 <= k < |Documents|
      ensures RenderDocumentIcon(Documents[k]) == DocumentIcon(KnownImages[k], Documents[k].title)
    {
      assert Documents[k].title == KnownTitles[k];
    }
  }
}
