/**
 * The plain-language summary of the client-files app (`group_issues_plain`),
 * stated for any categorising function `bucket` and any advice function
 * `action`: violations are filed by category in order of first appearance,
 * each category becomes one entry, and the entries are sorted by count,
 * largest first, with ties kept in first-appearance order.
 */
module Issues {
  import opened Wrappers
  import opened Seqs
  import opened Sorting
  import opened Axe
  import opened ClientScan

  /** One entry of the summary. */
  datatype CategorySummary = CategorySummary(
    category: string,
    count: nat,
    severityCounts: map<string, nat>,
    pages: seq<string>,
    examples: seq<ClientViolation>,
    action: string)

  /** The severity text of a violation: `SEVERITY_MAP.get(severity, "Moderate")`. */
  function SeverityLabelOf(v: ClientViolation): string {
    Label(SeverityOf(v.severity))
  }

  function PageOf(v: ClientViolation): string {
    v.page
  }

  /** `Counter(...)` of the severity texts: each text that occurs, with its number of occurrences. */
  function SeverityCounts(items: seq<ClientViolation>): (m: map<string, nat>)
    ensures forall l :: l in m <==> l in Map(SeverityLabelOf, items)
    ensures forall l :: l in m ==> m[l] == |FilterKey(items, SeverityLabelOf, l)|
  {
    map l | l in Map(SeverityLabelOf, items) :: |FilterKey(items, SeverityLabelOf, l)|
  }

  /** A `Counter` lookup: a missing key counts zero. */
  function Tally(m: map<string, nat>, l: string): nat {
    if l in m then m[l] else 0
  }

  /** The four severity texts, most severe first. */
  function SeverityKeys(): seq<string> {
    ["Critical", "Serious", "Moderate", "Minor"]
  }

  lemma SeverityKeysFacts()
    ensures NoDup(SeverityKeys())
    ensures forall s: Severity :: Label(s) in SeverityKeys()
  {
  }

  /** The counts of the four severity texts add up to the number of items, and no other text occurs. */
  lemma SeverityCountsTotal(items: seq<ClientViolation>)
    ensures var m := SeverityCounts(items);
      Tally(m, "Critical") + Tally(m, "Serious") + Tally(m, "Moderate") + Tally(m, "Minor") == |items|
    ensures forall l :: l in SeverityCounts(items) ==> l in SeverityKeys()
  {
    var m := SeverityCounts(items);
    var keys := SeverityKeys();
    SeverityKeysFacts();
    forall i | 0 <= i < |items| ensures SeverityLabelOf(items[i]) in keys {
    }
    forall l | l in m ensures l in keys {
      var i :| 0 <= i < |items| && Map(SeverityLabelOf, items)[i] == l;
    }
    BucketSizesPartition(keys, items, SeverityLabelOf);
    TallyBuckets(items, keys);
  }

  /** Unfolds the bucket total over the four severity texts into the four tallies. */
  lemma TallyBuckets(items: seq<ClientViolation>, keys: seq<string>)
    requires keys == SeverityKeys()
    ensures var m := SeverityCounts(items);
      BucketSizes(keys, items, SeverityLabelOf) ==
        Tally(m, "Critical") + Tally(m, "Serious") + Tally(m, "Moderate") + Tally(m, "Minor")
  {
    var m := SeverityCounts(items);
    forall k | k in keys ensures Tally(m, k) == |FilterKey(items, SeverityLabelOf, k)| {
      FilterKeyPresent(items, SeverityLabelOf, k);
    }
    var k1, k2, k3 := keys[1..], keys[2..], keys[3..];
    assert k1 == keys[1..] && k1[1..] == k2 && k2[1..] == k3 && k3[1..] == [];
    assert keys[0] == "Critical" && k1[0] == "Serious" && k2[0] == "Moderate" && k3[0] == "Minor";
    assert BucketSizes(k3, items, SeverityLabelOf) == Tally(m, "Minor");
    assert BucketSizes(k2, items, SeverityLabelOf) == Tally(m, "Moderate") + Tally(m, "Minor");
    assert BucketSizes(k1, items, SeverityLabelOf) == Tally(m, "Serious") + Tally(m, "Moderate") + Tally(m, "Minor");
  }

  function Min(a: int, b: int): int {
    if a < b then a else b
  }

  /**
   * The entry of category `cat`: its violations counted, the severity
   * counter, the sorted distinct pages, the first three violations and the
   * advice for the category.
   */
  function SummaryOf(bucket: ClientViolation -> string, action: string -> string, vs: seq<ClientViolation>, cat: string): CategorySummary {
    var items := FilterKey(vs, bucket, cat);
    CategorySummary(cat, |items|, SeverityCounts(items), SortedSet(Map(PageOf, items)), items[..Min(3, |items|)], action(cat))
  }

  /**
   * An entry counts the category's violations, carries the category's advice,
   * and shows the first three of them (all of them when there are fewer).
   */
  lemma SummaryOfSpec(bucket: ClientViolation -> string, action: string -> string, vs: seq<ClientViolation>, cat: string)
    ensures var r := SummaryOf(bucket, action, vs, cat);
      && r.category == cat && r.count == |FilterKey(vs, bucket, cat)| && r.action == action(cat)
      && r.examples <= FilterKey(vs, bucket, cat) && |r.examples| == Min(3, r.count)
  {
  }

  /** An entry lists each page that has a violation of its category, exactly once and in increasing order, and no other page. */
  lemma SummaryPages(bucket: ClientViolation -> string, action: string -> string, vs: seq<ClientViolation>, cat: string)
    ensures StrictlyIncreasing(SummaryOf(bucket, action, vs, cat).pages)
    ensures forall i :: 0 <= i < |vs| && bucket(vs[i]) == cat ==> vs[i].page in SummaryOf(bucket, action, vs, cat).pages
    ensures forall p :: p in SummaryOf(bucket, action, vs, cat).pages ==>
      exists i :: 0 <= i < |vs| && bucket(vs[i]) == cat && vs[i].page == p
  {
    var items := FilterKey(vs, bucket, cat);
    var pages := Map(PageOf, items);
    assert SummaryOf(bucket, action, vs, cat).pages == SortedSet(pages);
    FilterKeyComplete(vs, bucket, cat);
    forall i | 0 <= i < |vs| && bucket(vs[i]) == cat ensures vs[i].page in pages {
      var j :| 0 <= j < |items| && items[j] == vs[i];
      assert pages[j] == vs[i].page;
    }
    forall p | p in pages ensures exists i :: 0 <= i < |vs| && bucket(vs[i]) == cat && vs[i].page == p {
      var j :| 0 <= j < |items| && pages[j] == p;
      assert items[j] in vs;
      var i :| 0 <= i < |vs| && vs[i] == items[j];
    }
  }

  /** The entries of the categories `cats`, in that order. */
  function Summaries(bucket: ClientViolation -> string, action: string -> string, vs: seq<ClientViolation>, cats: seq<string>): (r: seq<CategorySummary>)
    ensures |r| == |cats|
    ensures forall i :: 0 <= i < |cats| ==> r[i] == SummaryOf(bucket, action, vs, cats[i])
    decreases |cats|
  {
    if cats == [] then []
    else Summaries(bucket, action, vs, cats[..|cats| - 1]) + [SummaryOf(bucket, action, vs, cats[|cats| - 1])]
  }

  function CountKey(s: CategorySummary): nat {
    s.count
  }

  /** The order of `sort(key=count, reverse=True)`: larger counts first. */
  predicate CountGe(a: nat, b: nat) {
    a >= b
  }

  /** The categories in order of first appearance. */
  function CategoriesOf(bucket: ClientViolation -> string, vs: seq<ClientViolation>): seq<string> {
    Distinct(Map(bucket, vs))
  }

  /** The summary: one entry per category in order of first appearance, then a stable sort by count, largest first. */
  function IssuesBy(bucket: ClientViolation -> string, action: string -> string, vs: seq<ClientViolation>): seq<CategorySummary> {
    SortBy(Summaries(bucket, action, vs, CategoriesOf(bucket, vs)), CountKey, CountGe)
  }

  /** The sum of the entries' counts. */
  function TotalCount(s: seq<CategorySummary>): nat
    decreases |s|
  {
    if s == [] then 0 else s[0].count + TotalCount(s[1..])
  }

  lemma {:induction false} TotalCountAppend(a: seq<CategorySummary>, b: seq<CategorySummary>)
    ensures TotalCount(a + b) == TotalCount(a) + TotalCount(b)
  {
    if a == [] {
      assert a + b == b;
    } else {
      assert (a + b)[0] == a[0] && (a + b)[1..] == a[1..] + b;
      TotalCountAppend(a[1..], b);
    }
  }

  lemma {:induction false} TotalCountInsert(x: CategorySummary, s: seq<CategorySummary>)
    ensures TotalCount(Insert(x, s, CountKey, CountGe)) == x.count + TotalCount(s)
  {
    if s != [] && !CountGe(x.count, s[0].count) {
      var rest := Insert(x, s[1..], CountKey, CountGe);
      assert Insert(x, s, CountKey, CountGe) == [s[0]] + rest;
      assert ([s[0]] + rest)[1..] == rest;
      TotalCountInsert(x, s[1..]);
    } else if s != [] {
      assert ([x] + s)[1..] == s;
    }
  }

  lemma {:induction false} TotalCountSortBy(s: seq<CategorySummary>)
    ensures TotalCount(SortBy(s, CountKey, CountGe)) == TotalCount(s)
  {
    if s != [] {
      TotalCountSortBy(s[1..]);
      TotalCountInsert(s[0], SortBy(s[1..], CountKey, CountGe));
    }
  }

  lemma {:induction false} TotalCountSummaries(bucket: ClientViolation -> string, action: string -> string, vs: seq<ClientViolation>, cats: seq<string>)
    ensures TotalCount(Summaries(bucket, action, vs, cats)) == BucketSizes(cats, vs, bucket)
    decreases |cats|
  {
    if cats != [] {
      var init, last := cats[..|cats| - 1], cats[|cats| - 1];
      assert init + [last] == cats;
      var e := SummaryOf(bucket, action, vs, last);
      assert Summaries(bucket, action, vs, cats) == Summaries(bucket, action, vs, init) + [e];
      assert TotalCount([e]) == |FilterKey(vs, bucket, last)|;
      TotalCountSummaries(bucket, action, vs, init);
      TotalCountAppend(Summaries(bucket, action, vs, init), [e]);
      BucketSizesSnoc(init, last, vs, bucket);
    }
  }

  /** The counts of the entries add up to the number of violations: each violation is counted once. */
  lemma IssuesByTotal(bucket: ClientViolation -> string, action: string -> string, vs: seq<ClientViolation>)
    ensures TotalCount(IssuesBy(bucket, action, vs)) == |vs|
  {
    var cats := CategoriesOf(bucket, vs);
    TotalCountSortBy(Summaries(bucket, action, vs, cats));
    TotalCountSummaries(bucket, action, vs, cats);
    forall i | 0 <= i < |vs| ensures bucket(vs[i]) in cats {
      assert Map(bucket, vs)[i] == bucket(vs[i]);
    }
    BucketSizesPartition(cats, vs, bucket);
  }

  /**
   * The summary is sorted by count, largest first; entries with equal counts
   * keep the order in which their categories first appeared; and it is a
   * rearrangement of the unsorted entries.
   */
  lemma IssuesByOrder(bucket: ClientViolation -> string, action: string -> string, vs: seq<ClientViolation>)
    ensures SortedBy(IssuesBy(bucket, action, vs), CountKey, CountGe)
    ensures forall k :: FilterKey(IssuesBy(bucket, action, vs), CountKey, k) == FilterKey(Summaries(bucket, action, vs, CategoriesOf(bucket, vs)), CountKey, k)
    ensures multiset(IssuesBy(bucket, action, vs)) == multiset(Summaries(bucket, action, vs, CategoriesOf(bucket, vs)))
  {
    var unsorted := Summaries(bucket, action, vs, CategoriesOf(bucket, vs));
    assert TotalPreorder(CountGe);
    SortBySorted(unsorted, CountKey, CountGe);
    forall k ensures FilterKey(SortBy(unsorted, CountKey, CountGe), CountKey, k) == FilterKey(unsorted, CountKey, k) {
      SortByStable(unsorted, CountKey, CountGe, k);
    }
  }

  /** Every entry is the summary of its own category; that category occurs, so its count is positive. */
  lemma IssuesByEntries(bucket: ClientViolation -> string, action: string -> string, vs: seq<ClientViolation>, i: nat)
    requires i < |IssuesBy(bucket, action, vs)|
    ensures var e := IssuesBy(bucket, action, vs)[i];
      e == SummaryOf(bucket, action, vs, e.category) && e.category in Map(bucket, vs) && e.count > 0
  {
    var cats := CategoriesOf(bucket, vs);
    var unsorted := Summaries(bucket, action, vs, cats);
    var e := IssuesBy(bucket, action, vs)[i];
    assert e in multiset(unsorted);
    var j :| 0 <= j < |unsorted| && unsorted[j] == e;
    var c := cats[j];
    DistinctSound(Map(bucket, vs));
    assert c in Map(bucket, vs);
    var n :| 0 <= n < |vs| && Map(bucket, vs)[n] == c;
    FilterKeyComplete(vs, bucket, c);
    assert vs[n] in FilterKey(vs, bucket, c);
  }

  /** Every violation's category has an entry. */
  lemma IssuesByCover(bucket: ClientViolation -> string, action: string -> string, vs: seq<ClientViolation>, n: nat)
    requires n < |vs|
    ensures exists i :: 0 <= i < |IssuesBy(bucket, action, vs)| && IssuesBy(bucket, action, vs)[i].category == bucket(vs[n])
  {
    var cats := CategoriesOf(bucket, vs);
    var unsorted := Summaries(bucket, action, vs, cats);
    assert Map(bucket, vs)[n] == bucket(vs[n]);
    var j :| 0 <= j < |cats| && cats[j] == bucket(vs[n]);
    assert unsorted[j].category == bucket(vs[n]);
    assert unsorted[j] in multiset(IssuesBy(bucket, action, vs));
  }

  /** No violations, no entries. */
  lemma IssuesByEmpty(bucket: ClientViolation -> string, action: string -> string)
    ensures IssuesBy(bucket, action, []) == []
  {
    assert Map(bucket, []) == [];
  }

  /** The first loop: the `defaultdict(list)` keyed by category, after the violations `p`. */
  function FillIssues(bucket: ClientViolation -> string, p: seq<ClientViolation>): (seq<string>, map<string, seq<ClientViolation>>)
    decreases |p|
  {
    if p == [] then ([], map[])
    else
      var d := FillIssues(bucket, p[..|p| - 1]);
      var v := p[|p| - 1];
      var c := bucket(v);
      (if c in d.1 then d.0 else d.0 + [c], d.1[c := (if c in d.1 then d.1[c] else []) + [v]])
  }

  /** The keys in insertion order are the categories in order of first appearance, each holding its violations in order. */
  ghost predicate IssuesHold(bucket: ClientViolation -> string, p: seq<ClientViolation>, cats: seq<string>, buckets: map<string, seq<ClientViolation>>) {
    && cats == CategoriesOf(bucket, p)
    && (forall c :: c in buckets <==> c in cats)
    && (forall c :: c in buckets ==> buckets[c] == FilterKey(p, bucket, c))
  }

  lemma {:induction false} FillIssuesHolds(bucket: ClientViolation -> string, p: seq<ClientViolation>)
    ensures IssuesHold(bucket, p, FillIssues(bucket, p).0, FillIssues(bucket, p).1)
    decreases |p|
  {
    if p != [] {
      var init, v := p[..|p| - 1], p[|p| - 1];
      assert init + [v] == p;
      FillIssuesHolds(bucket, init);
      IssuesStep(bucket, init, v, FillIssues(bucket, init).0, FillIssues(bucket, init).1);
    }
  }

  lemma IssuesStep(bucket: ClientViolation -> string, p: seq<ClientViolation>, v: ClientViolation, cats: seq<string>, buckets: map<string, seq<ClientViolation>>)
    requires IssuesHold(bucket, p, cats, buckets)
    ensures var c := bucket(v);
      IssuesHold(bucket, p + [v], if c in buckets then cats else cats + [c], buckets[c := (if c in buckets then buckets[c] else []) + [v]])
  {
    var c := bucket(v);
    var cats' := if c in buckets then cats else cats + [c];
    var b := buckets[c := (if c in buckets then buckets[c] else []) + [v]];
    DistinctMapSnoc(p, v, bucket);
    assert cats' == CategoriesOf(bucket, p + [v]);
    assert forall k :: k in b <==> k in cats';
    forall k | k in b ensures b[k] == FilterKey(p + [v], bucket, k) {
      FilterKeySnoc(p, v, bucket, k);
      if k == c && c !in buckets {
        BucketAbsent(p, bucket, c);
      }
    }
  }

  /** The first loop of `group_issues_plain`: file each violation under its category, creating the key on first sight. */
  method FillIssueBuckets(bucket: ClientViolation -> string, vs: seq<ClientViolation>) returns (cats: seq<string>, buckets: map<string, seq<ClientViolation>>)
    ensures IssuesHold(bucket, vs, cats, buckets)
  {
    cats := [];
    buckets := map[];
    for n := 0 to |vs|
      invariant (cats, buckets) == FillIssues(bucket, vs[..n])
    {
      var v := vs[n];
      var cat := bucket(v);
      var items := if cat in buckets then buckets[cat] else [];
      if cat !in buckets {
        cats := cats + [cat];
      }
      buckets := buckets[cat := items + [v]];
      TakeSnoc(vs, n);
    }
    assert vs[..|vs|] == vs;
    FillIssuesHolds(bucket, vs);
  }

  /** `group_issues_plain`: fill the buckets, build one entry per key in insertion order, sort by count. */
  method GroupIssuesBy(bucket: ClientViolation -> string, action: string -> string, vs: seq<ClientViolation>) returns (summary: seq<CategorySummary>)
    ensures summary == IssuesBy(bucket, action, vs)
  {
    var cats, buckets := FillIssueBuckets(bucket, vs);
    summary := [];
    for a := 0 to |cats|
      invariant summary == Summaries(bucket, action, vs, cats[..a])
    {
      var cat := cats[a];
      var items := buckets[cat];
      var severities := SeverityCounts(items);
      var pages := SortedSet(Map(PageOf, items));
      summary := summary + [CategorySummary(cat, |items|, severities, pages, items[..Min(3, |items|)], action(cat))];
      TakeSnoc(cats, a);
    }
    assert cats[..|cats|] == cats;
    summary := SortBy(summary, CountKey, CountGe);
  }
}
