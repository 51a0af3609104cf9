/**
 * Result shaping of the auditor app (`streamlit_app.py`): the audit table,
 * the quick-wins filter, the severity breakdown, and the grouping of
 * violations for the accessibility statement.
 */
module AppReport {
  import opened Wrappers
  import opened Text
  import opened Seqs
  import opened Sorting
  import opened Axe
  import opened AppScan
  import opened Statement

  /** `CATEGORY_BY_CRITERION` of the auditor app, in priority order. */
  function AppTable(): KeywordTable {
    [ ("Page Structure and Headings", ["info & relationships", "page titled", "landmarks", "heading"]),
      ("Keyboard Navigation", ["keyboard", "focus visible", "focus order", "skip link"]),
      ("Text and Colour Contrast", ["contrast"]),
      ("Images and Alt Text", ["non-text content", "image", "img"]),
      ("Forms and Labels", ["labels or instructions", "autocomplete", "error", "form", "label"]),
      ("Mobile Accessibility", ["target size", "reflow", "viewport"]),
      ("Screen Reader Experience", ["name, role, value", "aria", "link-name", "button-name"]) ]
  }

  /** The category names are distinct, none is "Other", and no keyword is empty. */
  lemma AppTableShape()
    ensures forall a, b :: 0 <= a < b < |AppTable()| ==> AppTable()[a].0 != AppTable()[b].0
    ensures forall a :: 0 <= a < |AppTable()| ==> AppTable()[a].0 != "Other"
    ensures forall i, j :: 0 <= i < |AppTable()| && 0 <= j < |AppTable()[i].1| ==> |AppTable()[i].1[j]| > 0
  {
  }

  /** `bucket_name` of the auditor app: first-match-wins over the lower-cased text; `None` reads as "". */
  function AppBucket(text: Option<string>): (name: string)
    ensures name == "Other" || exists i :: 0 <= i < |AppTable()| && name == AppTable()[i].0
  {
    Classify(AppTable(), Lower(text.GetOr("")))
  }

  /**
   * Category `i` is chosen exactly when one of its keywords occurs in the
   * lower-cased text and no earlier category's keyword does; "Other" exactly
   * when no keyword occurs.
   */
  lemma AppBucketSpec(text: Option<string>, i: int)
    requires 0 <= i < |AppTable()|
    ensures var t := Lower(text.GetOr(""));
      && (AppBucket(text) == AppTable()[i].0 <==>
            RowMatches(AppTable(), i, t) && forall j :: 0 <= j < i ==> !RowMatches(AppTable(), j, t))
      && (AppBucket(text) == "Other" <==> forall j :: 0 <= j < |AppTable()| ==> !RowMatches(AppTable(), j, t))
  {
    AppTableShape();
    ClassifyWinner(AppTable(), Lower(text.GetOr("")), i);
    ClassifyOther(AppTable(), Lower(text.GetOr("")));
  }

  /** Missing or empty text falls into "Other". */
  lemma AppBucketEmpty()
    ensures AppBucket(None) == "Other"
    ensures AppBucket(Some("")) == "Other"
  {
    AppTableShape();
    ClassifyOther(AppTable(), "");
  }

  /** Priority decides overlaps, and matching ignores case: a heading rule mentioning contrast is a structure issue. */
  lemma AppBucketPriority()
    ensures AppBucket(Some("Heading contrast")) == "Page Structure and Headings"
  {
    var t := Lower("Heading contrast");
    assert t[0..][..7] == "heading";
    assert Occurs("heading", t);
    assert AppTable()[0].1[3] == "heading";
    assert RowMatches(AppTable(), 0, t);
  }

  /** A row of the audit table. */
  datatype AuditRow = AuditRow(
    page: string,
    criterion: string,
    axeId: Option<string>,
    severity: Severity,
    selector: string,
    plannedFix: Option<string>)

  /** The row of one violation: severity through the table, selector of the first element or "?". */
  function AuditRowOf(v: Violation): AuditRow {
    var selector := if v.elements == [] then "?" else v.elements[0].selector.GetOr("?");
    AuditRow(v.page, v.criterion, v.axeId, SeverityOf(v.severity), selector, v.recommendedFix)
  }

  /**
   * A record written by the crawler comes back in the audit table with its
   * page, the mapped severity and the selector the crawler picked.
   */
  lemma RecordRowAgree(url: string, v: RawViolation)
    requires HasSelector(v)
    ensures var r := AuditRowOf(RecordOf(url, v));
      && r.page == url && r.criterion == Criterion(v)
      && r.severity == SeverityOf(v.impact)
      && Some(r.selector) == FirstSelector(v)
  {
  }

  /** The sort key `["Severity", "Page"]`: the severity's text, then the page. */
  function AuditKey(r: AuditRow): (string, string) {
    (Label(r.severity), r.page)
  }

  /** Lexicographic order on the two sort columns. */
  predicate KeyLe(a: (string, string), b: (string, string)) {
    StrLt(a.0, b.0) || (a.0 == b.0 && StrLe(a.1, b.1))
  }

  lemma KeyLeTotalPreorder()
    ensures TotalPreorder(KeyLe)
  {
    forall a: (string, string), b: (string, string) ensures KeyLe(a, b) || KeyLe(b, a) {
      StrLtTotal(a.0, b.0);
      StrLtTotal(a.1, b.1);
    }
    forall a: (string, string), b: (string, string), c: (string, string) | KeyLe(a, b) && KeyLe(b, c) ensures KeyLe(a, c) {
      if StrLt(a.0, b.0) && StrLt(b.0, c.0) {
        StrLtTransitive(a.0, b.0, c.0);
      }
      if a.1 != b.1 && b.1 != c.1 && StrLt(a.1, b.1) && StrLt(b.1, c.1) {
        StrLtTransitive(a.1, b.1, c.1);
      }
    }
  }

  /** The audit table: one row per violation, sorted stably by severity text and page. */
  function AuditTable(vs: seq<Violation>): seq<AuditRow> {
    SortBy(Map(AuditRowOf, vs), AuditKey, KeyLe)
  }

  /**
   * One row per violation and no other rows; sorted by severity text, then
   * page; and rows with equal keys keep the order of the violations.
   */
  lemma AuditTableSpec(vs: seq<Violation>)
    ensures var t := AuditTable(vs);
      && |t| == |vs|
      && multiset(t) == multiset(Map(AuditRowOf, vs))
      && SortedBy(t, AuditKey, KeyLe)
      && forall k :: FilterKey(t, AuditKey, k) == FilterKey(Map(AuditRowOf, vs), AuditKey, k)
  {
    var rows := Map(AuditRowOf, vs);
    assert |multiset(AuditTable(vs))| == |multiset(rows)|;
    KeyLeTotalPreorder();
    SortBySorted(rows, AuditKey, KeyLe);
    forall k ensures FilterKey(AuditTable(vs), AuditKey, k) == FilterKey(rows, AuditKey, k) {
      SortByStable(rows, AuditKey, KeyLe, k);
    }
  }

  /**
   * The Severity column sorts as text, not by seriousness: Critical, then
   * Minor, then Moderate, then Serious.
   */
  lemma SeverityTextOrder()
    ensures StrLt(Label(Critical), Label(Minor)) && StrLt(Label(Minor), Label(Moderate)) && StrLt(Label(Moderate), Label(Serious))
    ensures !StrLt(Label(Serious), Label(Minor))
  {
    assert StrLt(Label(Minor), Label(Serious));
    StrLtAsymmetric(Label(Minor), Label(Serious));
  }

  /** So in the audit table every Minor row precedes every Serious row. */
  lemma AuditTableSeverityOrder(vs: seq<Violation>)
    ensures var t := AuditTable(vs);
      forall i, j :: 0 <= i < |t| && 0 <= j < |t| && t[i].severity == Minor && t[j].severity == Serious ==> i < j
  {
    AuditTableSorted(vs);
    MinorBeforeSerious(AuditTable(vs));
  }

  lemma MinorBeforeSerious(t: seq<AuditRow>)
    requires SortedBy(t, AuditKey, KeyLe)
    ensures forall i, j :: 0 <= i < |t| && 0 <= j < |t| && t[i].severity == Minor && t[j].severity == Serious ==> i < j
  {
    forall i, j | 0 <= i < |t| && 0 <= j < |t| && t[i].severity == Minor && t[j].severity == Serious ensures i < j {
      SeverityTextOrder();
      if j < i {
        assert false;
      }
    }
  }

  lemma AuditTableSorted(vs: seq<Violation>)
    ensures SortedBy(AuditTable(vs), AuditKey, KeyLe)
  {
    KeyLeTotalPreorder();
    SortBySorted(Map(AuditRowOf, vs), AuditKey, KeyLe);
  }

  /** `build_audit_table`: the row loop, then the sort (skipped on an empty table). */
  method BuildAuditTable(vs: seq<Violation>) returns (table: seq<AuditRow>)
    ensures table == AuditTable(vs)
    ensures |table| == |vs| && multiset(table) == multiset(Map(AuditRowOf, vs))
    ensures SortedBy(table, AuditKey, KeyLe)
  {
    var rows: seq<AuditRow> := [];
    for i := 0 to |vs|
      invariant rows == Map(AuditRowOf, vs[..i])
    {
      var v := vs[i];
      var sev := SeverityOf(v.severity);
      var selector := if v.elements == [] then "?" else v.elements[0].selector.GetOr("?");
      rows := rows + [AuditRow(v.page, v.criterion, v.axeId, sev, selector, v.recommendedFix)];
      assert vs[..i + 1] == vs[..i] + [v];
      MapAppend(AuditRowOf, vs[..i], [v]);
    }
    assert vs[..|vs|] == vs;
    table := rows;
    if |rows| > 0 {
      table := SortBy(rows, AuditKey, KeyLe);
    }
    AuditTableSpec(vs);
  }

  /** `QUICK_WIN_HINTS`: literal fragments, all lower-case. */
  function QuickWinHints(): seq<string> {
    [ "color-contrast", "document-title", "page titled", "label", "labels or instructions",
      "image", "img", "non-text content", "button-name", "link-name", "target size", "viewport" ]
  }

  /** A row is a quick win when some hint occurs in its criterion, ignoring case. */
  predicate IsQuickWin(r: AuditRow) {
    AnyOccurs(Lower(r.criterion), QuickWinHints())
  }

  /** `quick_wins`: the quick-win rows, in table order; an empty table comes back as it is. */
  function QuickWins(table: seq<AuditRow>): (r: seq<AuditRow>)
    ensures |r| <= |table|
    ensures forall i :: 0 <= i < |r| ==> r[i] in table && IsQuickWin(r[i])
    ensures forall i :: 0 <= i < |table| && IsQuickWin(table[i]) ==> table[i] in r
  {
    if table == [] then table
    else
      FilterComplete(IsQuickWin, table);
      Filter(IsQuickWin, table)
  }

  /** Filtering keeps the table's order: quick wins of a split table are the quick wins of each part, in order. */
  lemma QuickWinsOrder(a: seq<AuditRow>, b: seq<AuditRow>)
    ensures QuickWins(a + b) == QuickWins(a) + QuickWins(b)
  {
    FilterAppend(IsQuickWin, a, b);
    if a == [] {
      assert a + b == b;
    }
    if b == [] {
      assert a + b == a;
    }
  }

  /** Matching ignores case: an upper-case rule id is still a quick win. */
  lemma QuickWinsCaseInsensitive(r: AuditRow)
    requires "COLOR-CONTRAST" <= r.criterion
    ensures IsQuickWin(r)
  {
    var t := Lower(r.criterion);
    forall i | 0 <= i < 14 ensures t[i] == "color-contrast"[i] {
      assert r.criterion[i] == "COLOR-CONTRAST"[i];
    }
    assert t[0..][..14] == "color-contrast";
    assert Occurs(QuickWinHints()[0], t);
  }

  /** The four levels in the breakdown's fixed order. */
  function SeverityOrder(): seq<Severity> {
    [Critical, Serious, Moderate, Minor]
  }

  function SeverityOfRow(r: AuditRow): Severity {
    r.severity
  }

  /** `severity_breakdown`: a (level, count) row for each of the four levels, in fixed order. */
  function SeverityBreakdown(table: seq<AuditRow>): (r: seq<(string, nat)>)
    ensures |r| == 4
    ensures forall i :: 0 <= i < 4 ==> r[i].0 == Label(SeverityOrder()[i])
  {
    Map((s: Severity) => (Label(s), |FilterKey(table, SeverityOfRow, s)|), SeverityOrder())
  }

  /**
   * The counts are the number of rows at each level, and they add up to the
   * number of rows (all zero for an empty table).
   */
  lemma SeverityBreakdownTotal(table: seq<AuditRow>)
    ensures var r := SeverityBreakdown(table);
      && (forall i :: 0 <= i < 4 ==> r[i].1 == |FilterKey(table, SeverityOfRow, SeverityOrder()[i])|)
      && r[0].1 + r[1].1 + r[2].1 + r[3].1 == |table|
  {
    var keys := SeverityOrder();
    assert NoDup(keys);
    forall i | 0 <= i < |table| ensures SeverityOfRow(table[i]) in keys {
      assert table[i].severity == Critical || table[i].severity == Serious || table[i].severity == Moderate || table[i].severity == Minor;
    }
    BucketSizesPartition(keys, table, SeverityOfRow);
    assert keys[1..] == [Serious, Moderate, Minor] && keys[2..] == [Moderate, Minor] && keys[3..] == [Minor];
    assert keys[1..][1..] == keys[2..] && keys[2..][1..] == keys[3..] && keys[3..][1..] == [];
    var r := SeverityBreakdown(table);
    assert BucketSizes(keys, table, SeverityOfRow) == r[0].1 + BucketSizes(keys[1..], table, SeverityOfRow);
    assert BucketSizes(keys[1..], table, SeverityOfRow) == r[1].1 + BucketSizes(keys[2..], table, SeverityOfRow);
    assert BucketSizes(keys[2..], table, SeverityOfRow) == r[2].1 + BucketSizes(keys[3..], table, SeverityOfRow);
    assert BucketSizes(keys[3..], table, SeverityOfRow) == r[3].1 + BucketSizes([], table, SeverityOfRow);
  }

  /** The category `group_for_statement` files a violation under: `bucket_name` of its criterion. */
  function CategoryOf(v: Violation): string {
    AppBucket(Some(v.criterion))
  }

  /** What `group_for_statement` returns: categories in order of first appearance, each with its criteria in order of first appearance. */
  function StatementGroups(vs: seq<Violation>): seq<StatementGroup> {
    GroupsBy(CategoryOf, vs)
  }

  /**
   * The statement grouping places every violation in exactly one group: each
   * group holds exactly the violations of its (category, criterion) pair in
   * scan order, no pair has two groups, every violation's pair has a group,
   * and the entries add up to the number of violations. Groups of one
   * category are contiguous.
   */
  lemma StatementGroupsSpec(vs: seq<Violation>)
    ensures AllExact(CategoryOf, vs, StatementGroups(vs))
    ensures KeysDistinct(StatementGroups(vs))
    ensures forall n :: 0 <= n < |vs| ==> Covered(CategoryOf, vs, StatementGroups(vs), n)
    ensures Contiguous(StatementGroups(vs))
    ensures ItemCount(StatementGroups(vs)) == |vs|
  {
    GroupsBySpec(CategoryOf, vs);
  }

  /** With no violations the statement has no groups. */
  lemma StatementGroupsEmpty()
    ensures StatementGroups([]) == []
  {
    GroupsByEmpty(CategoryOf);
  }

  /** `group_for_statement`: the violations grouped by `bucket_name` of their criterion, then by criterion. */
  method GroupForStatement(vs: seq<Violation>) returns (grouped: seq<StatementGroup>)
    ensures grouped == StatementGroups(vs)
  {
    grouped := GroupBuckets(CategoryOf, vs);
  }
}
