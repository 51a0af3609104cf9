/**
 * What the scanner receives from the browser and from the in-page rule
 * engine (axe-core), and the normalisation rules both app variants share:
 * the severity table, the criterion label, the representative selector, and
 * first-match-wins keyword bucketing.
 *
 * The browser is an oracle: for each URL it either fails to navigate or
 * yields the page's anchor targets and the rule engine's violation list.
 * `None` in a field of a raw record means the key is absent; `None` for the
 * links or for the violation list means that call raised and was swallowed.
 */
module Axe {
  import opened Wrappers
  import opened Text

  /** One affected DOM node of a violation; `target` is its selector path. */
  datatype RawNode = RawNode(target: Option<seq<string>>)

  /** One entry of the rule engine's `violations` list. */
  datatype RawViolation = RawViolation(
    id: Option<string>,
    help: Option<string>,
    impact: Option<string>,
    helpUrl: Option<string>,
    description: Option<string>,
    nodes: Option<seq<RawNode>>)

  /** The outcome of visiting one URL. */
  datatype PageLoad =
    | NavigationFailed
    | Loaded(links: Option<seq<string>>, axe: Option<seq<RawViolation>>)

  /** The browser, as a function of the URL it is sent to. */
  type Browser = string -> PageLoad

  /** `urlparse(url).netloc`, or `None` where the parser raises. */
  type Netloc = string -> Option<string>

  /** The links a loaded page contributes: none when reading the anchors raised. */
  function LinksOf(p: PageLoad): seq<string>
    requires p.Loaded?
  {
    p.links.GetOr([])
  }

  /** The raw violations of a loaded page: none when injecting or running the engine raised. */
  function RawViolationsOf(p: PageLoad): seq<RawViolation>
    requires p.Loaded?
  {
    p.axe.GetOr([])
  }

  /** `f"{v.get('id')} — {v.get('help')}"`. */
  function Criterion(v: RawViolation): (c: string)
    ensures v.id.Some? && v.help.Some? ==> c == v.id.value + " — " + v.help.value
    ensures v.id.Some? && v.help.None? ==> c == v.id.value + " — None"
    ensures v.id.None? && v.help.Some? ==> c == "None — " + v.help.value
    ensures v.id.None? && v.help.None? ==> c == "None — None"
  {
    PyStr(v.id) + " — " + PyStr(v.help)
  }

  /**
   * Whether `v.get("nodes", [{}])[0].get("target", ["?"])[0]` can be
   * evaluated: a node list or target list that is present must not be empty.
   */
  predicate HasSelector(v: RawViolation) {
    && (v.nodes.Some? ==> |v.nodes.value| > 0)
    && (v.nodes.Some? && v.nodes.value[0].target.Some? ==> |v.nodes.value[0].target.value| > 0)
  }

  /**
   * The representative selector: the first target of the first node, or "?"
   * when either key is absent; `None` where Python raises `IndexError`.
   */
  function FirstSelector(v: RawViolation): (r: Option<string>)
    ensures r.Some? <==> HasSelector(v)
    ensures v.nodes.None? ==> r == Some("?")
    ensures v.nodes.Some? && |v.nodes.value| > 0 && v.nodes.value[0].target.None? ==> r == Some("?")
    ensures (HasSelector(v) && v.nodes.Some? && v.nodes.value[0].target.Some?) ==>
              r == Some(v.nodes.value[0].target.value[0])
  {
    match v.nodes
    case None => Some("?")
    case Some(ns) =>
      if ns == [] then None
      else
        match ns[0].target
        case None => Some("?")
        case Some(t) => if t == [] then None else Some(t[0])
  }

  /** The four severity levels of a report row. */
  datatype Severity = Critical | Serious | Moderate | Minor

  /** The text a report shows for a severity level. */
  function Label(s: Severity): string {
    match s
    case Critical => "Critical"
    case Serious => "Serious"
    case Moderate => "Moderate"
    case Minor => "Minor"
  }

  /** The rule engine's impact word for a severity level. */
  function ImpactName(s: Severity): string {
    match s
    case Critical => "critical"
    case Serious => "serious"
    case Moderate => "moderate"
    case Minor => "minor"
  }

  /**
   * `SEVERITY_MAP.get(impact, "Moderate")`: total, case-sensitive, and
   * `Moderate` for a missing or unknown impact.
   */
  function SeverityOf(impact: Option<string>): (s: Severity)
    ensures impact.None? ==> s == Moderate
    ensures s != Moderate ==> impact == Some(ImpactName(s))
  {
    match impact
    case None => Moderate
    case Some(w) =>
      if w == "critical" then Critical
      else if w == "serious" then Serious
      else if w == "moderate" then Moderate
      else if w == "minor" then Minor
      else Moderate
  }

  /** Each impact word maps back to its own level: the table is the inverse of `ImpactName`. */
  lemma SeverityOfImpactName(s: Severity)
    ensures SeverityOf(Some(ImpactName(s))) == s
  {
  }

  /** The table is case-sensitive: a capitalised impact word is unknown and reads as Moderate. */
  lemma SeverityCaseSensitive()
    ensures SeverityOf(Some("Critical")) == Moderate
    ensures SeverityOf(Some("SERIOUS")) == Moderate
  {
  }

  /** A keyword table: category names in priority order, each with its keywords. */
  type KeywordTable = seq<(string, seq<string>)>

  ghost predicate RowMatches(table: KeywordTable, i: int, t: string)
    requires 0 <= i < |table|
  {
    exists j :: 0 <= j < |table[i].1| && Occurs(table[i].1[j], t)
  }

  /** `any(k in t for k in keys)`. */
  function AnyOccurs(t: string, keys: seq<string>): (b: bool)
    ensures b <==> exists j :: 0 <= j < |keys| && Occurs(keys[j], t)
  {
    if keys == [] then false
    else if Contains(t, keys[0]) then true
    else
      assert forall j :: 1 <= j < |keys| ==> keys[j] == keys[1..][j - 1];
      AnyOccurs(t, keys[1..])
  }

  /** The index of the first row one of whose keywords occurs in `t`, or `|table|`. */
  function FirstMatch(table: KeywordTable, t: string): (i: nat)
    ensures i <= |table|
    ensures i < |table| ==> RowMatches(table, i, t)
    ensures forall j :: 0 <= j < i ==> !RowMatches(table, j, t)
  {
    if table == [] then 0
    else if AnyOccurs(t, table[0].1) then 0
    else
      var i := FirstMatch(table[1..], t);
      RowMatchesShift(table, t);
      1 + i
  }

  lemma RowMatchesShift(table: KeywordTable, t: string)
    requires table != []
    ensures forall j :: 1 <= j < |table| ==> (RowMatches(table, j, t) <==> RowMatches(table[1..], j - 1, t))
  {
    forall j | 1 <= j < |table| ensures RowMatches(table, j, t) <==> RowMatches(table[1..], j - 1, t) {
      assert table[j] == table[1..][j - 1];
    }
  }

  /** First-match-wins bucketing: the first row that matches names the category; no match is "Other". */
  function Classify(table: KeywordTable, t: string): (name: string)
    ensures FirstMatch(table, t) < |table| ==> name == table[FirstMatch(table, t)].0
    ensures FirstMatch(table, t) == |table| ==> name == "Other"
  {
    var i := FirstMatch(table, t);
    if i < |table| then table[i].0 else "Other"
  }

  /**
   * Priority order decides: row `i` wins exactly when it matches and no
   * earlier row does, and "Other" comes out exactly when no row matches
   * (for a table that does not itself use the name "Other").
   */
  lemma {:induction false} ClassifyWinner(table: KeywordTable, t: string, i: int)
    requires 0 <= i < |table|
    requires forall a, b :: 0 <= a < b < |table| ==> table[a].0 != table[b].0
    requires forall a :: 0 <= a < |table| ==> table[a].0 != "Other"
    ensures (Classify(table, t) == table[i].0) <==>
              (RowMatches(table, i, t) && forall j :: 0 <= j < i ==> !RowMatches(table, j, t))
  {
    var w := FirstMatch(table, t);
    if RowMatches(table, i, t) && forall j :: 0 <= j < i ==> !RowMatches(table, j, t) {
      assert w <= i;
    }
    if Classify(table, t) == table[i].0 && w < |table| {
      assert w == i;
    }
  }

  lemma {:induction false} ClassifyOther(table: KeywordTable, t: string)
    requires forall a :: 0 <= a < |table| ==> table[a].0 != "Other"
    ensures Classify(table, t) == "Other" <==> forall j :: 0 <= j < |table| ==> !RowMatches(table, j, t)
  {
    var w := FirstMatch(table, t);
    if w < |table| {
      assert RowMatches(table, w, t);
    }
  }
}
