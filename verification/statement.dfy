/**
 * The grouping behind the accessibility statement (`group_for_statement`):
 * violations are filed in a dictionary of dictionaries, first by category,
 * then by criterion, and the groups are listed in the dictionaries' insertion
 * order. The grouping is stated for any categorising function `bucket`; the
 * auditor app instantiates it with its keyword classifier.
 */
module Statement {
  import opened Wrappers
  import opened Seqs
  import opened Axe
  import opened AppScan

  /** One entry of a statement group. */
  datatype StatementItem = StatementItem(
    page: string,
    selector: string,
    summary: string,
    impact: Severity,
    recommendedFix: Option<string>)

  /** A (category, criterion) group of the statement with its entries in scan order. */
  datatype StatementGroup = StatementGroup(category: string, criterion: string, items: seq<StatementItem>)

  /** The statement entry of one violation; an element without an issue text reads "See details". */
  function StatementItemOf(v: Violation): (it: StatementItem)
    ensures it.impact == SeverityOf(v.severity)
    ensures (v.elements == [] || v.elements[0].issue.None? || v.elements[0].issue == Some("")) ==> it.summary == "See details"
    ensures (v.elements != [] && v.elements[0].issue.Some? && v.elements[0].issue.value != "") ==> it.summary == v.elements[0].issue.value
  {
    var ex := if v.elements == [] then Element(None, None) else v.elements[0];
    var summary := if ex.issue.None? || ex.issue == Some("") then "See details" else ex.issue.value;
    StatementItem(v.page, ex.selector.GetOr("?"), summary, SeverityOf(v.severity), v.recommendedFix)
  }

  function CriterionOf(v: Violation): string {
    v.criterion
  }

  /** The group of criterion `crit` among the violations `inCat` of category `cat`. */
  function GroupFor(cat: string, inCat: seq<Violation>, crit: string): StatementGroup {
    StatementGroup(cat, crit, Map(StatementItemOf, FilterKey(inCat, CriterionOf, crit)))
  }

  function CriterionGroups(cat: string, inCat: seq<Violation>, crits: seq<string>): (r: seq<StatementGroup>)
    ensures |r| == |crits|
    ensures forall i :: 0 <= i < |crits| ==> r[i] == GroupFor(cat, inCat, crits[i])
  {
    if crits == [] then [] else [GroupFor(cat, inCat, crits[0])] + CriterionGroups(cat, inCat, crits[1..])
  }

  /** The groups of one category: one per criterion, in order of first appearance. */
  function CategoryGroups(bucket: Violation -> string, vs: seq<Violation>, cat: string): seq<StatementGroup> {
    var inCat := FilterKey(vs, bucket, cat);
    CriterionGroups(cat, inCat, Distinct(Map(CriterionOf, inCat)))
  }

  /** The groups of the categories `cats`, block after block. */
  function AllGroups(bucket: Violation -> string, vs: seq<Violation>, cats: seq<string>): seq<StatementGroup>
    decreases |cats|
  {
    if cats == [] then [] else AllGroups(bucket, vs, cats[..|cats| - 1]) + CategoryGroups(bucket, vs, cats[|cats| - 1])
  }

  /** What `group_for_statement` returns: categories in order of first appearance, each with its criteria in order of first appearance. */
  function GroupsBy(bucket: Violation -> string, vs: seq<Violation>): seq<StatementGroup> {
    AllGroups(bucket, vs, Distinct(Map(bucket, vs)))
  }

  function ItemCount(gs: seq<StatementGroup>): nat {
    if gs == [] then 0 else |gs[0].items| + ItemCount(gs[1..])
  }

  lemma {:induction false} ItemCountAppend(a: seq<StatementGroup>, b: seq<StatementGroup>)
    ensures ItemCount(a + b) == ItemCount(a) + ItemCount(b)
  {
    if a == [] {
      assert a + b == b;
    } else {
      assert (a + b)[1..] == a[1..] + b;
      ItemCountAppend(a[1..], b);
    }
  }

  /** A group holds exactly the entries of the violations of its category and criterion, in scan order. */
  ghost predicate GroupExact(bucket: Violation -> string, vs: seq<Violation>, g: StatementGroup) {
    g.items == Map(StatementItemOf, FilterKey(FilterKey(vs, bucket, g.category), CriterionOf, g.criterion))
  }

  /** No (category, criterion) pair has two groups. */
  ghost predicate KeysDistinct(gs: seq<StatementGroup>) {
    forall i, j :: 0 <= i < j < |gs| ==> gs[i].category != gs[j].category || gs[i].criterion != gs[j].criterion
  }

  /** The groups of one category form one block. */
  ghost predicate Contiguous(gs: seq<StatementGroup>) {
    forall i, k, j :: 0 <= i < k < j < |gs| && gs[i].category == gs[j].category ==> gs[k].category == gs[i].category
  }

  /** Violation `n` has the group of its (category, criterion) pair. */
  ghost predicate Covered(bucket: Violation -> string, vs: seq<Violation>, gs: seq<StatementGroup>, n: int)
    requires 0 <= n < |vs|
  {
    exists i :: 0 <= i < |gs| && gs[i].category == bucket(vs[n]) && gs[i].criterion == vs[n].criterion
  }

  lemma {:induction false} CriterionGroupsCount(cat: string, inCat: seq<Violation>, crits: seq<string>)
    ensures ItemCount(CriterionGroups(cat, inCat, crits)) == BucketSizes(crits, inCat, CriterionOf)
  {
    if crits != [] {
      CriterionGroupsCount(cat, inCat, crits[1..]);
    }
  }

  /** Every group is of category `cat`. */
  ghost predicate AllOfCategory(gs: seq<StatementGroup>, cat: string) {
    forall i :: 0 <= i < |gs| ==> gs[i].category == cat
  }

  /** Every group is of one of the categories `cats`. */
  ghost predicate AllInCategories(gs: seq<StatementGroup>, cats: seq<string>) {
    forall i :: 0 <= i < |gs| ==> gs[i].category in cats
  }

  ghost predicate AllExact(bucket: Violation -> string, vs: seq<Violation>, gs: seq<StatementGroup>) {
    forall i :: 0 <= i < |gs| ==> GroupExact(bucket, vs, gs[i])
  }

  lemma CategoryGroupsExact(bucket: Violation -> string, vs: seq<Violation>, cat: string)
    ensures AllOfCategory(CategoryGroups(bucket, vs, cat), cat)
    ensures AllExact(bucket, vs, CategoryGroups(bucket, vs, cat))
  {
  }

  lemma CategoryGroupsDistinct(bucket: Violation -> string, vs: seq<Violation>, cat: string)
    ensures KeysDistinct(CategoryGroups(bucket, vs, cat))
  {
    var inCat := FilterKey(vs, bucket, cat);
    var crits := Distinct(Map(CriterionOf, inCat));
    var gs := CategoryGroups(bucket, vs, cat);
    forall i, j | 0 <= i < j < |gs| ensures gs[i].criterion != gs[j].criterion {
      assert gs[i].criterion == crits[i] && gs[j].criterion == crits[j];
    }
  }

  /** The entries of one category's groups are exactly its violations. */
  lemma CategoryGroupsCount(bucket: Violation -> string, vs: seq<Violation>, cat: string)
    ensures ItemCount(CategoryGroups(bucket, vs, cat)) == |FilterKey(vs, bucket, cat)|
  {
    var inCat := FilterKey(vs, bucket, cat);
    var crits := Distinct(Map(CriterionOf, inCat));
    CriterionGroupsCount(cat, inCat, crits);
    forall i | 0 <= i < |inCat| ensures CriterionOf(inCat[i]) in crits {
      assert Map(CriterionOf, inCat)[i] == CriterionOf(inCat[i]);
    }
    BucketSizesPartition(crits, inCat, CriterionOf);
  }

  lemma CategoryGroupsCover(bucket: Violation -> string, vs: seq<Violation>, cat: string, n: nat)
    requires n < |vs| && bucket(vs[n]) == cat
    ensures Covered(bucket, vs, CategoryGroups(bucket, vs, cat), n)
  {
    var inCat := FilterKey(vs, bucket, cat);
    var crits := Distinct(Map(CriterionOf, inCat));
    var gs := CategoryGroups(bucket, vs, cat);
    FilterKeyComplete(vs, bucket, cat);
    var m :| 0 <= m < |inCat| && inCat[m] == vs[n];
    assert Map(CriterionOf, inCat)[m] == vs[n].criterion;
    var i :| 0 <= i < |crits| && crits[i] == vs[n].criterion;
    assert gs[i].criterion == vs[n].criterion && gs[i].category == cat;
  }

  lemma NoDupInit(cats: seq<string>)
    requires cats != [] && NoDup(cats)
    ensures NoDup(cats[..|cats| - 1]) && cats[|cats| - 1] !in cats[..|cats| - 1]
  {
  }

  lemma {:induction false} AllGroupsInCategories(bucket: Violation -> string, vs: seq<Violation>, cats: seq<string>)
    ensures AllInCategories(AllGroups(bucket, vs, cats), cats)
    decreases |cats|
  {
    if cats != [] {
      var init, last := cats[..|cats| - 1], cats[|cats| - 1];
      assert init + [last] == cats;
      var a := AllGroups(bucket, vs, init);
      var b := CategoryGroups(bucket, vs, last);
      assert AllGroups(bucket, vs, cats) == a + b;
      CategoryGroupsExact(bucket, vs, last);
      AllGroupsInCategories(bucket, vs, init);
      InCategoriesAppend(a, b, init, last);
    }
  }

  lemma InCategoriesAppend(a: seq<StatementGroup>, b: seq<StatementGroup>, init: seq<string>, last: string)
    requires AllInCategories(a, init) && AllOfCategory(b, last)
    ensures AllInCategories(a + b, init + [last])
  {
    forall i | 0 <= i < |a + b| ensures (a + b)[i].category in init + [last] {
      if i < |a| {
        assert (a + b)[i] == a[i];
      } else {
        assert (a + b)[i] == b[i - |a|];
      }
    }
  }

  lemma {:induction false} AllGroupsExact(bucket: Violation -> string, vs: seq<Violation>, cats: seq<string>)
    ensures AllExact(bucket, vs, AllGroups(bucket, vs, cats))
    decreases |cats|
  {
    if cats != [] {
      var init, last := cats[..|cats| - 1], cats[|cats| - 1];
      var a := AllGroups(bucket, vs, init);
      var b := CategoryGroups(bucket, vs, last);
      assert AllGroups(bucket, vs, cats) == a + b;
      CategoryGroupsExact(bucket, vs, last);
      AllGroupsExact(bucket, vs, init);
      AllExactAppend(bucket, vs, a, b);
    }
  }

  lemma AllExactAppend(bucket: Violation -> string, vs: seq<Violation>, a: seq<StatementGroup>, b: seq<StatementGroup>)
    requires AllExact(bucket, vs, a) && AllExact(bucket, vs, b)
    ensures AllExact(bucket, vs, a + b)
  {
    forall i | 0 <= i < |a + b| ensures GroupExact(bucket, vs, (a + b)[i]) {
      if i < |a| {
        assert (a + b)[i] == a[i];
      } else {
        assert (a + b)[i] == b[i - |a|];
      }
    }
  }

  /** Groups of the categories `init` followed by a block of a new category `c` keep pairs distinct. */
  lemma BlockDistinct(a: seq<StatementGroup>, b: seq<StatementGroup>, c: string, init: seq<string>)
    requires AllInCategories(a, init) && KeysDistinct(a)
    requires AllOfCategory(b, c) && KeysDistinct(b) && c !in init
    ensures KeysDistinct(a + b)
  {
    var gs := a + b;
    forall i, j | 0 <= i < j < |gs| ensures gs[i].category != gs[j].category || gs[i].criterion != gs[j].criterion {
      if j < |a| {
        assert gs[i] == a[i] && gs[j] == a[j];
      } else if i >= |a| {
        assert gs[i] == b[i - |a|] && gs[j] == b[j - |a|];
      } else {
        assert gs[i] == a[i] && gs[j] == b[j - |a|];
        assert a[i].category in init;
      }
    }
  }

  /** Contiguous groups of the categories `init` followed by a block of a new category `c` are contiguous. */
  lemma BlockContiguous(a: seq<StatementGroup>, b: seq<StatementGroup>, c: string, init: seq<string>)
    requires AllInCategories(a, init) && Contiguous(a)
    requires AllOfCategory(b, c) && c !in init
    ensures Contiguous(a + b)
  {
    var gs := a + b;
    assert forall j :: |a| <= j < |gs| ==> gs[j] == b[j - |a|];
    forall i | 0 <= i < |a| ensures gs[i].category != c {
      assert gs[i] == a[i];
      assert a[i].category in init;
    }
    forall i, k, j | 0 <= i < k < j < |gs| && gs[i].category == gs[j].category ensures gs[k].category == gs[i].category {
      if j < |a| {
        assert gs[i] == a[i] && gs[k] == a[k] && gs[j] == a[j];
      }
    }
  }

  lemma {:induction false} AllGroupsDistinct(bucket: Violation -> string, vs: seq<Violation>, cats: seq<string>)
    requires NoDup(cats)
    ensures KeysDistinct(AllGroups(bucket, vs, cats))
    decreases |cats|
  {
    if cats != [] {
      var init, last := cats[..|cats| - 1], cats[|cats| - 1];
      NoDupInit(cats);
      CategoryGroupsExact(bucket, vs, last);
      CategoryGroupsDistinct(bucket, vs, last);
      AllGroupsInCategories(bucket, vs, init);
      AllGroupsDistinct(bucket, vs, init);
      BlockDistinct(AllGroups(bucket, vs, init), CategoryGroups(bucket, vs, last), last, init);
    }
  }

  lemma {:induction false} AllGroupsContiguous(bucket: Violation -> string, vs: seq<Violation>, cats: seq<string>)
    requires NoDup(cats)
    ensures Contiguous(AllGroups(bucket, vs, cats))
    decreases |cats|
  {
    if cats != [] {
      var init, last := cats[..|cats| - 1], cats[|cats| - 1];
      NoDupInit(cats);
      CategoryGroupsExact(bucket, vs, last);
      AllGroupsInCategories(bucket, vs, init);
      AllGroupsContiguous(bucket, vs, init);
      BlockContiguous(AllGroups(bucket, vs, init), CategoryGroups(bucket, vs, last), last, init);
    }
  }

  lemma {:induction false} AllGroupsCount(bucket: Violation -> string, vs: seq<Violation>, cats: seq<string>)
    ensures ItemCount(AllGroups(bucket, vs, cats)) == BucketSizes(cats, vs, bucket)
    decreases |cats|
  {
    if cats != [] {
      var init, last := cats[..|cats| - 1], cats[|cats| - 1];
      assert init + [last] == cats;
      var a, b := AllGroups(bucket, vs, init), CategoryGroups(bucket, vs, last);
      assert AllGroups(bucket, vs, cats) == a + b;
      ItemCountAppend(a, b);
      CategoryGroupsCount(bucket, vs, last);
      AllGroupsCount(bucket, vs, init);
      BucketSizesSnoc(init, last, vs, bucket);
    }
  }

  lemma {:induction false} AllGroupsCover(bucket: Violation -> string, vs: seq<Violation>, cats: seq<string>, n: nat)
    requires n < |vs| && bucket(vs[n]) in cats
    ensures Covered(bucket, vs, AllGroups(bucket, vs, cats), n)
    decreases |cats|
  {
    var init, last := cats[..|cats| - 1], cats[|cats| - 1];
    assert cats == init + [last];
    var a := AllGroups(bucket, vs, init);
    var b := CategoryGroups(bucket, vs, last);
    if bucket(vs[n]) == last {
      CategoryGroupsCover(bucket, vs, last, n);
    } else {
      AllGroupsCover(bucket, vs, init, n);
    }
    CoveredAppend(bucket, vs, a, b, n);
  }

  /** A violation covered by either part is covered by the concatenation. */
  lemma CoveredAppend(bucket: Violation -> string, vs: seq<Violation>, a: seq<StatementGroup>, b: seq<StatementGroup>, n: nat)
    requires n < |vs| && (Covered(bucket, vs, a, n) || Covered(bucket, vs, b, n))
    ensures Covered(bucket, vs, a + b, n)
  {
    if Covered(bucket, vs, b, n) {
      var i :| 0 <= i < |b| && b[i].category == bucket(vs[n]) && b[i].criterion == vs[n].criterion;
      assert (a + b)[|a| + i] == b[i];
    } else {
      var i :| 0 <= i < |a| && a[i].category == bucket(vs[n]) && a[i].criterion == vs[n].criterion;
      assert (a + b)[i] == a[i];
    }
  }

  /**
   * The statement grouping places every violation in exactly one group: each
   * group holds exactly the violations of its (category, criterion) pair in
   * scan order, no pair has two groups, every violation's pair has a group,
   * and the entries add up to the number of violations. Groups of one
   * category are contiguous.
   */
  lemma GroupsBySpec(bucket: Violation -> string, vs: seq<Violation>)
    ensures AllExact(bucket, vs, GroupsBy(bucket, vs))
    ensures KeysDistinct(GroupsBy(bucket, vs))
    ensures forall n :: 0 <= n < |vs| ==> Covered(bucket, vs, GroupsBy(bucket, vs), n)
    ensures Contiguous(GroupsBy(bucket, vs))
    ensures ItemCount(GroupsBy(bucket, vs)) == |vs|
  {
    var cats := Distinct(Map(bucket, vs));
    AllGroupsExact(bucket, vs, cats);
    AllGroupsDistinct(bucket, vs, cats);
    AllGroupsContiguous(bucket, vs, cats);
    AllGroupsCount(bucket, vs, cats);
    forall n | 0 <= n < |vs| ensures Covered(bucket, vs, GroupsBy(bucket, vs), n) {
      assert Map(bucket, vs)[n] == bucket(vs[n]);
      AllGroupsCover(bucket, vs, cats, n);
    }
    forall n | 0 <= n < |vs| ensures bucket(vs[n]) in cats {
      assert Map(bucket, vs)[n] == bucket(vs[n]);
    }
    BucketSizesPartition(cats, vs, bucket);
  }

  /** The criteria dictionary's key order per category, and the entry lists per (category, criterion) pair. */
  type CriteriaDict = map<string, seq<string>>
  type EntryDict = map<(string, string), seq<StatementItem>>

  /** The criteria of category `c` among `p`, in order of first appearance. */
  function CatCriteria(bucket: Violation -> string, p: seq<Violation>, c: string): seq<string> {
    Distinct(Map(CriterionOf, FilterKey(p, bucket, c)))
  }

  /** The entries of the pair (`c`, `k`) among `p`, in scan order. */
  function PairEntries(bucket: Violation -> string, p: seq<Violation>, c: string, k: string): seq<StatementItem> {
    Map(StatementItemOf, FilterKey(FilterKey(p, bucket, c), CriterionOf, k))
  }

  ghost predicate CatsHold(bucket: Violation -> string, p: seq<Violation>, cats: seq<string>) {
    cats == Distinct(Map(bucket, p))
  }

  ghost predicate CritKeysHold(cats: seq<string>, crits: CriteriaDict) {
    forall c :: c in crits <==> c in cats
  }

  ghost predicate CritsHold(bucket: Violation -> string, p: seq<Violation>, crits: CriteriaDict) {
    forall c :: c in crits ==> crits[c] == CatCriteria(bucket, p, c)
  }

  ghost predicate EntryKeysHold(crits: CriteriaDict, items: EntryDict) {
    forall pair :: pair in items <==> pair.0 in crits && pair.1 in crits[pair.0]
  }

  ghost predicate EntriesHold(bucket: Violation -> string, p: seq<Violation>, items: EntryDict) {
    forall pair :: pair in items ==> items[pair] == PairEntries(bucket, p, pair.0, pair.1)
  }

  /**
   * The nested dictionaries after the violations `p`: categories in order of
   * first appearance, each category's criteria likewise, and each pair's
   * entries in scan order.
   */
  ghost predicate BucketsHold(bucket: Violation -> string, p: seq<Violation>, cats: seq<string>, crits: CriteriaDict, items: EntryDict) {
    CatsHold(bucket, p, cats) && CritKeysHold(cats, crits) && CritsHold(bucket, p, crits) && EntryKeysHold(crits, items) && EntriesHold(bucket, p, items)
  }

  /** The category keys after filing `v`: its category joins at the end when new. */
  function NewCats(bucket: Violation -> string, cats: seq<string>, crits: CriteriaDict, v: Violation): seq<string> {
    if bucket(v) in crits then cats else cats + [bucket(v)]
  }

  /** The criteria after filing `v`: its criterion joins its category's list at the end when new. */
  function NewCrits(bucket: Violation -> string, crits: CriteriaDict, v: Violation): CriteriaDict {
    var cat := bucket(v);
    var crits1 := if cat in crits then crits else crits[cat := []];
    if CriterionOf(v) in crits1[cat] then crits1 else crits1[cat := crits1[cat] + [CriterionOf(v)]]
  }

  /** The entries after filing `v`: its entry is appended to its pair's list. */
  function NewItems(bucket: Violation -> string, items: EntryDict, v: Violation): EntryDict {
    var pair := (bucket(v), CriterionOf(v));
    var prev := if pair in items then items[pair] else [];
    items[pair := prev + [StatementItemOf(v)]]
  }

  /** The nested dictionaries after filing the violations `p` one by one. */
  function Fill(bucket: Violation -> string, p: seq<Violation>): (seq<string>, CriteriaDict, EntryDict)
    decreases |p|
  {
    if p == [] then ([], map[], map[])
    else
      var d := Fill(bucket, p[..|p| - 1]);
      var v := p[|p| - 1];
      (NewCats(bucket, d.0, d.1, v), NewCrits(bucket, d.1, v), NewItems(bucket, d.2, v))
  }

  /** Filling keeps every level of the dictionaries equal to its specification. */
  lemma {:induction false} FillHolds(bucket: Violation -> string, p: seq<Violation>)
    ensures BucketsHold(bucket, p, Fill(bucket, p).0, Fill(bucket, p).1, Fill(bucket, p).2)
    decreases |p|
  {
    if p != [] {
      var init := p[..|p| - 1];
      var v := p[|p| - 1];
      assert init + [v] == p;
      FillHolds(bucket, init);
      BucketsStep(bucket, init, v, Fill(bucket, init).0, Fill(bucket, init).1, Fill(bucket, init).2);
    }
  }

  /**
   * The first loop of `group_for_statement`: file each violation's entry
   * under its category and criterion, creating keys on first sight.
   */
  method FillBuckets(bucket: Violation -> string, vs: seq<Violation>) returns (cats: seq<string>, crits: CriteriaDict, items: EntryDict)
    ensures BucketsHold(bucket, vs, cats, crits, items)
  {
    cats := [];
    crits := map[];
    items := map[];
    for n := 0 to |vs|
      invariant (cats, crits, items) == Fill(bucket, vs[..n])
    {
      var v := vs[n];
      var cat := bucket(v);
      var crit := v.criterion;
      var item := StatementItemOf(v);
      ghost var cats', crits', items' := NewCats(bucket, cats, crits, v), NewCrits(bucket, crits, v), NewItems(bucket, items, v);
      if cat !in crits {
        cats := cats + [cat];
        crits := crits[cat := []];
      }
      if crit !in crits[cat] {
        crits := crits[cat := crits[cat] + [crit]];
      }
      var prev := if (cat, crit) in items then items[(cat, crit)] else [];
      items := items[(cat, crit) := prev + [item]];
      assert cats == cats' && crits == crits' && items == items';
      TakeSnoc(vs, n);
    }
    assert vs[..|vs|] == vs;
    FillHolds(bucket, vs);
  }

  /** Filing one more violation keeps the dictionaries equal to their specification. */
  lemma BucketsStep(bucket: Violation -> string, p: seq<Violation>, v: Violation, cats: seq<string>, crits: CriteriaDict, items: EntryDict)
    requires BucketsHold(bucket, p, cats, crits, items)
    ensures BucketsHold(bucket, p + [v], NewCats(bucket, cats, crits, v), NewCrits(bucket, crits, v), NewItems(bucket, items, v))
  {
    StepCats(bucket, p, v, cats, crits);
    StepCrits(bucket, p, v, cats, crits);
    StepEntryKeys(bucket, crits, items, v);
    StepEntries(bucket, p, v, cats, crits, items);
  }

  lemma StepCats(bucket: Violation -> string, p: seq<Violation>, v: Violation, cats: seq<string>, crits: CriteriaDict)
    requires CatsHold(bucket, p, cats) && CritKeysHold(cats, crits)
    ensures CatsHold(bucket, p + [v], NewCats(bucket, cats, crits, v))
    ensures CritKeysHold(NewCats(bucket, cats, crits, v), NewCrits(bucket, crits, v))
  {
    DistinctMapSnoc(p, v, bucket);
  }

  /** Filing `v` extends its own category's bucket and criteria list, and no other. */
  lemma CatBucketSnoc(bucket: Violation -> string, p: seq<Violation>, v: Violation, c: string)
    ensures FilterKey(p + [v], bucket, c) == FilterKey(p, bucket, c) + (if bucket(v) == c then [v] else [])
    ensures CatCriteria(bucket, p + [v], c) ==
              if bucket(v) != c || CriterionOf(v) in CatCriteria(bucket, p, c) then CatCriteria(bucket, p, c)
              else CatCriteria(bucket, p, c) + [CriterionOf(v)]
  {
    FilterKeySnoc(p, v, bucket, c);
    FilterKeyDistinctSnoc(p, v, bucket, CriterionOf, c);
  }

  lemma StepCrits(bucket: Violation -> string, p: seq<Violation>, v: Violation, cats: seq<string>, crits: CriteriaDict)
    requires CatsHold(bucket, p, cats) && CritKeysHold(cats, crits) && CritsHold(bucket, p, crits)
    ensures CritsHold(bucket, p + [v], NewCrits(bucket, crits, v))
  {
    var r := NewCrits(bucket, crits, v);
    forall c | c in r ensures r[c] == CatCriteria(bucket, p + [v], c) {
      if c !in crits {
        BucketAbsent(p, bucket, c);
      }
      StepCritsAt(bucket, p, v, crits, c);
    }
  }

  /** One category's criteria list after filing `v`. */
  lemma StepCritsAt(bucket: Violation -> string, p: seq<Violation>, v: Violation, crits: CriteriaDict, c: string)
    requires c in NewCrits(bucket, crits, v)
    requires c in crits ==> crits[c] == CatCriteria(bucket, p, c)
    requires c !in crits ==> FilterKey(p, bucket, c) == []
    ensures NewCrits(bucket, crits, v)[c] == CatCriteria(bucket, p + [v], c)
  {
    CatBucketSnoc(bucket, p, v, c);
    if c !in crits {
      assert CatCriteria(bucket, p, c) == [];
    }
  }

  lemma StepEntryKeys(bucket: Violation -> string, crits: CriteriaDict, items: EntryDict, v: Violation)
    requires EntryKeysHold(crits, items)
    ensures EntryKeysHold(NewCrits(bucket, crits, v), NewItems(bucket, items, v))
  {
    var r1, r2 := NewCrits(bucket, crits, v), NewItems(bucket, items, v);
    var cat, crit := bucket(v), CriterionOf(v);
    forall pair ensures pair in r2 <==> pair.0 in r1 && pair.1 in r1[pair.0] {
      if pair == (cat, crit) {
        assert pair in r2 && crit in r1[cat];
      } else if pair.0 == cat {
        assert pair in r2 <==> pair in items;
        assert pair.1 in r1[cat] <==> cat in crits && pair.1 in crits[cat];
      } else {
        assert pair in r2 <==> pair in items;
      }
    }
  }

  /** The entries of a pair grow by `v`'s entry exactly when `v` has that pair. */
  lemma PairEntriesSnoc(bucket: Violation -> string, p: seq<Violation>, v: Violation, c: string, k: string)
    ensures PairEntries(bucket, p + [v], c, k) ==
              PairEntries(bucket, p, c, k) + (if bucket(v) == c && CriterionOf(v) == k then [StatementItemOf(v)] else [])
  {
    FilterKeyNestedSnoc(p, v, bucket, CriterionOf, StatementItemOf, c, k);
  }

  /** A pair with no list yet has no entries among the violations filed so far. */
  lemma NewPairEmpty(bucket: Violation -> string, p: seq<Violation>, v: Violation, cats: seq<string>, crits: CriteriaDict, items: EntryDict)
    requires CatsHold(bucket, p, cats) && CritKeysHold(cats, crits) && CritsHold(bucket, p, crits) && EntryKeysHold(crits, items)
    requires (bucket(v), CriterionOf(v)) !in items
    ensures PairEntries(bucket, p, bucket(v), CriterionOf(v)) == []
  {
    var cat, crit := bucket(v), CriterionOf(v);
    if cat in crits {
      assert crit !in CatCriteria(bucket, p, cat);
      BucketAbsent(FilterKey(p, bucket, cat), CriterionOf, crit);
    } else {
      BucketAbsent(p, bucket, cat);
    }
  }

  lemma StepEntries(bucket: Violation -> string, p: seq<Violation>, v: Violation, cats: seq<string>, crits: CriteriaDict, items: EntryDict)
    requires BucketsHold(bucket, p, cats, crits, items)
    ensures EntriesHold(bucket, p + [v], NewItems(bucket, items, v))
  {
    var pair0 := (bucket(v), CriterionOf(v));
    if pair0 !in items {
      NewPairEmpty(bucket, p, v, cats, crits, items);
    }
    var r := NewItems(bucket, items, v);
    forall pair | pair in r ensures r[pair] == PairEntries(bucket, p + [v], pair.0, pair.1) {
      PairEntriesSnoc(bucket, p, v, pair.0, pair.1);
    }
  }

  lemma GroupsByEmpty(bucket: Violation -> string)
    ensures GroupsBy(bucket, []) == []
  {
  }

  /** Both loops of `group_for_statement` for the categorising function `bucket`: fill the nested dictionaries, then list their groups. */
  method GroupBuckets(bucket: Violation -> string, vs: seq<Violation>) returns (grouped: seq<StatementGroup>)
    ensures grouped == GroupsBy(bucket, vs)
  {
    var cats, crits, items := FillBuckets(bucket, vs);
    grouped := [];
    for a := 0 to |cats|
      invariant grouped == AllGroups(bucket, vs, cats[..a])
    {
      var block := ListCategory(bucket, vs, cats[a], crits, items);
      grouped := grouped + block;
      TakeSnoc(cats, a);
    }
    assert cats[..|cats|] == cats;
  }

  /** The inner loop of the listing: one group per criterion of category `cat`, in the dictionary's order. */
  method ListCategory(bucket: Violation -> string, vs: seq<Violation>, cat: string, crits: CriteriaDict, items: EntryDict)
    returns (block: seq<StatementGroup>)
    requires cat in crits && CritsHold(bucket, vs, crits) && EntryKeysHold(crits, items) && EntriesHold(bucket, vs, items)
    ensures block == CategoryGroups(bucket, vs, cat)
  {
    var cs := crits[cat];
    ghost var inCat := FilterKey(vs, bucket, cat);
    block := [];
    for b := 0 to |cs|
      invariant block == CriterionGroups(cat, inCat, cs[..b])
    {
      var crit := cs[b];
      TakeSnoc(cs, b);
      CriterionGroupsSnoc(cat, inCat, cs[..b], crit);
      assert (cat, crit) in items;
      block := block + [StatementGroup(cat, crit, items[(cat, crit)])];
    }
    assert cs[..|cs|] == cs;
  }

  lemma CriterionGroupsSnoc(cat: string, inCat: seq<Violation>, crits: seq<string>, crit: string)
    ensures CriterionGroups(cat, inCat, crits + [crit]) == CriterionGroups(cat, inCat, crits) + [GroupFor(cat, inCat, crit)]
  {
    var l := CriterionGroups(cat, inCat, crits + [crit]);
    var r := CriterionGroups(cat, inCat, crits) + [GroupFor(cat, inCat, crit)];
    forall i | 0 <= i < |l| ensures l[i] == r[i] {
      assert (crits + [crit])[i] == if i < |crits| then crits[i] else crit;
    }
  }
}
