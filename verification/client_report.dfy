/**
 * Result shaping of the client-files app (`streamlit_app_client.py`): its own
 * keyword table for `bucket_name`, the findings table (`to_dataframe`), the
 * plain-language summary per category (`group_issues_plain`) and the two
 * advice tables (`plain_action_for`, `why_it_matters`).
 *
 * The summary is stated for any categorising function `bucket`; the app uses
 * `ClientCategoryOf`.
 */
module ClientReport {
  import opened Wrappers
  import opened Text
  import opened Seqs
  import opened Sorting
  import opened Axe
  import opened ClientScan
  import opened Issues

  // The seven category names.
  const StructureCat := "Page Structure and Headings"
  const KeyboardCat := "Keyboard Navigation"
  const ContrastCat := "Text and Colour Contrast"
  const ImagesCat := "Images and Alt Text"
  const FormsCat := "Forms and Labels"
  const MobileCat := "Mobile Accessibility"
  const ReaderCat := "Screen Reader Experience"

  /** The category names in priority order. */
  function CategoryNames(): seq<string> {
    [StructureCat, KeyboardCat, ContrastCat, ImagesCat, FormsCat, MobileCat, ReaderCat]
  }

  /** The names are distinct and none is "Other". */
  lemma CategoryNamesFacts()
    ensures NoDup(CategoryNames()) && "Other" !in CategoryNames()
  {
  }

  /** `CATEGORY_BY_CRITERION` of the client-files app, in priority order. */
  function ClientTable(): KeywordTable {
    [ (StructureCat, ["heading", "title", "landmark", "structure"]),
      (KeyboardCat, ["keyboard", "focus"]),
      (ContrastCat, ["contrast"]),
      (ImagesCat, ["image", "alt", "non-text"]),
      (FormsCat, ["label", "form", "error"]),
      (MobileCat, ["target", "viewport", "reflow"]),
      (ReaderCat, ["aria", "role", "link-name", "button-name"]) ]
  }

  /** The category names are distinct, none is "Other", and no keyword is empty. */
  lemma ClientTableShape()
    ensures forall a, b :: 0 <= a < b < |ClientTable()| ==> ClientTable()[a].0 != ClientTable()[b].0
    ensures forall a :: 0 <= a < |ClientTable()| ==> ClientTable()[a].0 != "Other"
    ensures forall i, j :: 0 <= i < |ClientTable()| && 0 <= j < |ClientTable()[i].1| ==> |ClientTable()[i].1[j]| > 0
  {
  }

  /** `bucket_name` of the client-files app: first-match-wins over the lower-cased text; `None` reads as "". */
  function ClientBucket(text: Option<string>): (name: string)
    ensures name == "Other" || exists i :: 0 <= i < |ClientTable()| && name == ClientTable()[i].0
  {
    Classify(ClientTable(), Lower(text.GetOr("")))
  }

  /**
   * Category `i` is chosen exactly when one of its keywords occurs in the
   * lower-cased text and no earlier category's keyword does; "Other" exactly
   * when no keyword occurs.
   */
  lemma ClientBucketSpec(text: Option<string>, i: int)
    requires 0 <= i < |ClientTable()|
    ensures var t := Lower(text.GetOr(""));
      && (ClientBucket(text) == ClientTable()[i].0 <==>
            RowMatches(ClientTable(), i, t) && forall j :: 0 <= j < i ==> !RowMatches(ClientTable(), j, t))
      && (ClientBucket(text) == "Other" <==> forall j :: 0 <= j < |ClientTable()| ==> !RowMatches(ClientTable(), j, t))
  {
    ClientTableShape();
    ClassifyWinner(ClientTable(), Lower(text.GetOr("")), i);
    ClassifyOther(ClientTable(), Lower(text.GetOr("")));
  }

  /** Missing or empty text falls into "Other". */
  lemma ClientBucketEmpty()
    ensures ClientBucket(None) == "Other"
    ensures ClientBucket(Some("")) == "Other"
  {
    ClientTableShape();
    ClassifyOther(ClientTable(), "");
  }

  /** Priority decides overlaps: text mentioning both a title and a form is a structure issue. */
  lemma ClientBucketPriority()
    ensures ClientBucket(Some("Form title")) == "Page Structure and Headings"
  {
    var t := Lower("Form title");
    assert t[5..][..5] == "title";
    assert Occurs("title", t);
    assert ClientTable()[0].1[1] == "title";
    assert RowMatches(ClientTable(), 0, t);
  }

  /** The category a violation is summarised under: `bucket_name` of its criterion. */
  function ClientCategoryOf(v: ClientViolation): string {
    ClientBucket(Some(v.criterion))
  }

  // ---------------------------------------------------------------- findings table

  /** The six columns of the findings table, present even when it has no rows. */
  function Columns(): seq<string> {
    ["Page", "Criterion", "Axe ID", "Severity", "Selector / Element", "Description"]
  }

  /** A row of the findings table, one field per column. */
  datatype FindingRow = FindingRow(
    page: string,
    criterion: string,
    axeId: Option<string>,
    severity: string,
    selector: string,
    description: Option<string>)

  datatype FindingsTable = FindingsTable(columns: seq<string>, rows: seq<FindingRow>)

  /**
   * `to_dataframe`: the fixed columns, and one row per violation in order,
   * carrying its fields and its severity text.
   */
  method ToDataFrame(vs: seq<ClientViolation>) returns (df: FindingsTable)
    ensures df.columns == Columns() && |df.rows| == |vs|
    ensures forall i :: 0 <= i < |vs| ==>
      var r, v := df.rows[i], vs[i];
      && r.page == v.page && r.criterion == v.criterion && r.axeId == v.axeId
      && r.selector == v.selector && r.description == v.description
      && r.severity == Label(SeverityOf(v.severity))
    ensures forall i :: 0 <= i < |vs| ==> df.rows[i].severity in ["Critical", "Serious", "Moderate", "Minor"]
    ensures forall i :: 0 <= i < |vs| && vs[i].severity.None? ==> df.rows[i].severity == "Moderate"
  {
    var rows: seq<FindingRow> := [];
    for i := 0 to |vs|
      invariant |rows| == i
      invariant forall j :: 0 <= j < i ==> rows[j] == FindingRow(vs[j].page, vs[j].criterion, vs[j].axeId, SeverityLabelOf(vs[j]), vs[j].selector, vs[j].description)
    {
      var v := vs[i];
      rows := rows + [FindingRow(v.page, v.criterion, v.axeId, Label(SeverityOf(v.severity)), v.selector, v.description)];
    }
    df := FindingsTable(Columns(), rows);
  }

  // ---------------------------------------------------------------- advice tables

  /** `lib.get(key, default)` on a dictionary literal written as its (key, text) pairs. */
  function Lookup(lib: seq<(string, string)>, key: string, default: string): (r: string)
    ensures (forall i :: 0 <= i < |lib| ==> lib[i].0 != key) ==> r == default
    ensures forall i :: 0 <= i < |lib| && lib[i].0 == key && (forall j :: 0 <= j < i ==> lib[j].0 != key) ==> r == lib[i].1
  {
    if lib == [] then default
    else if lib[0].0 == key then lib[0].1
    else
      assert forall i :: 1 <= i < |lib| ==> lib[i] == lib[1..][i - 1];
      Lookup(lib[1..], key, default)
  }

  const StructureAction := "Use one H1 per page, fix heading order, and add landmarks so screen readers can navigate easily."
  const KeyboardAction := "Ensure all buttons and links are keyboard reachable and show a clear focus outline."
  const ContrastAction := "Increase text contrast to at least 4.5:1 (AA)."
  const ImagesAction := "Add short, meaningful alt text; mark purely decorative images with empty alt (alt=\"\")."
  const FormsAction := "Add visible labels linked to each field; make error messages clear and programmatically connected to their fields."
  const MobileAction := "Add a viewport meta tag, increase touch targets ~44×44 px, and verify menus work on phones."
  const ReaderAction := "Give controls clear accessible names and correct ARIA roles/states so they’re announced properly."
  const DefaultAction := "Update this area to meet WCAG AA guidance."

  /** The library of `plain_action_for`. */
  function ActionLib(): seq<(string, string)> {
    [ (StructureCat, StructureAction),
      (KeyboardCat, KeyboardAction),
      (ContrastCat, ContrastAction),
      (ImagesCat, ImagesAction),
      (FormsCat, FormsAction),
      (MobileCat, MobileAction),
      (ReaderCat, ReaderAction) ]
  }

  const StructureWhy := "Headings and landmarks help screen reader users understand and navigate the page."
  const KeyboardWhy := "Some people rely on a keyboard; visible focus shows where they are."
  const ContrastWhy := "Low contrast makes text difficult for people with low vision or colour blindness."
  const ImagesWhy := "Alt text lets screen readers describe images to people who can’t see them."
  const FormsWhy := "Clear labels and announced errors help everyone complete forms successfully."
  const MobileWhy := "Many users browse on phones; content and controls must work well on small screens."
  const ReaderWhy := "Correct names/roles/states let assistive tech announce controls accurately."
  const DefaultWhy := "This area affects how easily users can navigate and understand content."

  /** The library of `why_it_matters`. */
  function WhyLib(): seq<(string, string)> {
    [ (StructureCat, StructureWhy),
      (KeyboardCat, KeyboardWhy),
      (ContrastCat, ContrastWhy),
      (ImagesCat, ImagesWhy),
      (FormsCat, FormsWhy),
      (MobileCat, MobileWhy),
      (ReaderCat, ReaderWhy) ]
  }

  function PlainActionFor(category: string): string {
    Lookup(ActionLib(), category, DefaultAction)
  }

  function WhyItMatters(category: string): string {
    Lookup(WhyLib(), category, DefaultWhy)
  }

  /** Both libraries list exactly the seven categories of the keyword table, in its order. */
  lemma LibrariesMatchTable()
    ensures |ActionLib()| == |WhyLib()| == |ClientTable()| == |CategoryNames()| == 7
    ensures forall i :: 0 <= i < 7 ==> ActionLib()[i].0 == WhyLib()[i].0 == ClientTable()[i].0 == CategoryNames()[i]
  {
  }

  /** No specific text is the default one. */
  lemma TextsAreSpecific()
    ensures forall i :: 0 <= i < |ActionLib()| ==> ActionLib()[i].1 != DefaultAction
    ensures forall i :: 0 <= i < |WhyLib()| ==> WhyLib()[i].1 != DefaultWhy
  {
  }

  /** `Lookup` on a library whose keys are the distinct category names. */
  lemma LookupNames(lib: seq<(string, string)>, category: string, default: string)
    requires |lib| == 7 && forall i :: 0 <= i < 7 ==> lib[i].0 == CategoryNames()[i]
    ensures forall i :: 0 <= i < 7 && category == CategoryNames()[i] ==> Lookup(lib, category, default) == lib[i].1
    ensures category !in CategoryNames() ==> Lookup(lib, category, default) == default
  {
    CategoryNamesFacts();
  }

  /**
   * `plain_action_for` is total: each of the seven categories gets its own
   * action, which is not the default, and anything else, "Other" included,
   * gets the default.
   */
  lemma PlainActionForSpec(category: string)
    ensures forall i :: 0 <= i < 7 && category == CategoryNames()[i] ==> PlainActionFor(category) == ActionLib()[i].1 != DefaultAction
    ensures category !in CategoryNames() ==> PlainActionFor(category) == DefaultAction
  {
    assert |ActionLib()| == 7 && forall i :: 0 <= i < 7 ==> ActionLib()[i].0 == CategoryNames()[i];
    LookupNames(ActionLib(), category, DefaultAction);
    TextsAreSpecific();
  }

  /**
   * `why_it_matters` is total: each of the seven categories gets its own
   * explanation, which is not the default, and anything else, "Other"
   * included, gets the default.
   */
  lemma WhyItMattersSpec(category: string)
    ensures forall i :: 0 <= i < 7 && category == CategoryNames()[i] ==> WhyItMatters(category) == WhyLib()[i].1 != DefaultWhy
    ensures category !in CategoryNames() ==> WhyItMatters(category) == DefaultWhy
  {
    assert |WhyLib()| == 7 && forall i :: 0 <= i < 7 ==> WhyLib()[i].0 == CategoryNames()[i];
    LookupNames(WhyLib(), category, DefaultWhy);
    TextsAreSpecific();
  }

  /** "Other", the fallback of `bucket_name`, gets both default texts. */
  lemma OtherGetsDefaults()
    ensures PlainActionFor("Other") == DefaultAction && WhyItMatters("Other") == DefaultWhy
  {
    CategoryNamesFacts();
    PlainActionForSpec("Other");
    WhyItMattersSpec("Other");
  }

  // ---------------------------------------------------------------- plain-language summary

  /** `group_issues_plain` of the client-files app: entries by `bucket_name` of the criterion, with the plain-language action. */
  method GroupIssuesPlain(vs: seq<ClientViolation>) returns (summary: seq<CategorySummary>)
    ensures summary == IssuesBy(ClientCategoryOf, PlainActionFor, vs)
    ensures TotalCount(summary) == |vs|
    ensures SortedBy(summary, CountKey, CountGe)
  {
    summary := GroupIssuesBy(ClientCategoryOf, PlainActionFor, vs);
    IssuesByTotal(ClientCategoryOf, PlainActionFor, vs);
    IssuesByOrder(ClientCategoryOf, PlainActionFor, vs);
  }
}
