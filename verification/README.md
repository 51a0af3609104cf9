# Accessibility scanner core, modelled in Dafny

The repository holds two Streamlit front ends and a sign-in module. The
auditor app is `streamlit_app.py`. The client-files app is
`streamlit_app_client.py`. The sign-in module is `auth/auth_module.py`.

Both apps do the same job. They crawl one site breadth-first and stay on
the start URL's host. They run the axe-core rule engine on every page and
collect its violations into a report. They then shape that report:

- an audit table sorted by severity text and page;
- the quick-win subset;
- a per-severity breakdown;
- groups for the accessibility statement (auditor app);
- a findings table and category summaries in plain language, with advice
  texts (client-files app).

The sign-in module loads users from a spreadsheet tab and normalises them.
It caches a non-empty list. It checks credentials against that list and
restores a signed-in user from the session.

This project models that core:

- **Shared pieces.** Each is modelled once:
  - Python string helpers (`Text`): `strip`, ASCII `lower`, substring `in`,
    and code-point `<`;
  - sequence helpers (`Seqs`);
  - a stable sort (`Sorting`);
  - the records the rule engine returns (`Axe`);
  - the crawl frontier and its link admission (`Frontier`).
- **The crawlers.** Each crawler is a class whose fields are updated in
  place (`AppScan.AppScanner`, `ClientScan.ClientScanner`). A pure step
  function specifies each method. Lemmas about the step functions carry
  the crawl invariants:
  - no URL is discovered twice;
  - every visited URL is on the start host;
  - the page ceiling holds;
  - every record belongs to a visited page;
  - `pages_scanned` never exceeds the visited count.
- **Result shaping.** `AppReport` and `Statement` cover the auditor app.
  `ClientReport` and `Issues` cover the client-files app.
- **Sign-in** (`Auth`). A class `AuthManager` holds the sign-in fields and
  the user cache.

## Model

| member | source | states |
|---|---|---|
| Text.IsSpace | auth/auth_module.py:176-179 | the whitespace set of Python's `str.strip()`; Text.TrimStart, Text.TrimEnd and Text.StripSlice state what stripping removes in its terms |
| Text.TrimStart | auth/auth_module.py:176-179 | every character removed from the front is whitespace (Python `isspace` set), and the result does not start with whitespace |
| Text.TrimEnd | auth/auth_module.py:176-179 | every character removed from the back is whitespace, and the result does not end with whitespace |
| Text.Strip | auth/auth_module.py:176-179 | the result is no longer than the input and neither starts nor ends with whitespace |
| Text.TrimStartSuffix | auth/auth_module.py:176-179 | stripping the front keeps a suffix of the text |
| Text.TrimEndPrefix | auth/auth_module.py:176-179 | stripping the back keeps a prefix of the text |
| Text.StripSlice | auth/auth_module.py:176-179 | the stripped text is a slice of the input with only whitespace before and after it; with Text.Strip's ensures this fixes the result as `strip()` does |
| Text.Lower | streamlit_app.py:102 | the result has the same length; every character is the lower-case form of the one at the same position |
| Text.Contains | streamlit_app.py:104 | the result is true exactly when the needle occurs at some position of the text (Python `in` on strings) |
| Text.StrLtTransitive | streamlit_app.py:189 | string `<` (code-point lexicographic, the order pandas sorts text by) is transitive |
| Text.StrLtTotal | streamlit_app.py:189 | any two different strings are ordered one way or the other |
| Text.StrLtIrreflexive | streamlit_app.py:189 | no string is less than itself |
| Text.StrLtAsymmetric | streamlit_app.py:189 | string `<` never holds in both directions |
| Text.LowerIdempotent | auth/auth_module.py:177 | lowering twice is lowering once |
| Text.StripIdempotent | auth/auth_module.py:176-179 | stripping twice is stripping once |
| Text.StripLowerCommute | auth/auth_module.py:177 | lowering and stripping commute, so a normalised e-mail address is stable under re-normalisation |
| Seqs.Filter | streamlit_app.py:195-200 | every element kept is from the input and satisfies the predicate; the result is no longer than the input |
| Seqs.FilterComplete | streamlit_app.py:195-200 | every input element that satisfies the predicate is kept |
| Seqs.FilterAppend | streamlit_app.py:195-200 | filtering distributes over concatenation, so the input order is kept |
| Seqs.FilterKeyComplete | streamlit_app_client.py:241-244 | every element whose key matches is in that key's bucket |
| Seqs.Distinct | streamlit_app_client.py:241-244 | the distinct keys have no duplicates, and every key of the input is among them |
| Seqs.DistinctSound | streamlit_app_client.py:241-244 | every distinct key comes from the input |
| Seqs.BucketSizesPartition | streamlit_app_client.py:241-244 | the buckets of the distinct keys together hold exactly as many elements as the input |
| Sorting.SortBySorted | streamlit_app.py:189 | the sort's output is ordered by the key under any total preorder |
| Sorting.SortBy | streamlit_app.py:189 | the sort's output is a permutation of its input |
| Sorting.SortByStable | streamlit_app.py:189 | for every key, the elements with that key keep their input order |
| Sorting.SortedSet | streamlit_app_client.py:249 | `sorted(set(..))`: the result is strictly increasing and holds exactly the input's values |
| Sorting.StrictlyIncreasingUnique | streamlit_app_client.py:249 | a strictly increasing list is determined by its set of values |
| Axe.Criterion | streamlit_app.py:158 | the criterion text is the rule id, an em dash and the help text, each printed as `None` when missing, in all four cases |
| Axe.FirstSelector | streamlit_app.py:155 | a selector exists exactly when neither the node list nor the first node's target list is present and empty; a missing node list or a first node without a target list gives `?`; otherwise it is the first target of the first node |
| Axe.Label | streamlit_app.py:35-41 | the display text of a level; Issues.SeverityKeysFacts states the four texts are distinct and AppReport.SeverityTextOrder how they sort |
| Axe.SeverityOf | streamlit_app.py:35-41 | a missing impact gives Moderate; any other level comes only from its exact lower-case impact name |
| Axe.SeverityOfImpactName | streamlit_app.py:35-41 | each impact name maps back to its level |
| Axe.SeverityCaseSensitive | streamlit_app.py:35-41 | the lookup is case-sensitive: `Critical` and `SERIOUS` fall back to Moderate |
| Axe.AnyOccurs | streamlit_app.py:104 | true exactly when one of the keywords occurs in the text |
| Axe.FirstMatch | streamlit_app.py:101-107 | the index of the first row with a matching keyword, or the table length when none matches |
| Axe.Classify | streamlit_app.py:101-107 | the name of the first matching row, or `Other` when no row matches |
| Axe.ClassifyWinner | streamlit_app.py:101-107 | a row's name is chosen exactly when that row matches and no earlier row does |
| Axe.ClassifyOther | streamlit_app.py:107 | `Other` is chosen exactly when no row matches |
| Frontier.SameSite | streamlit_app.py:95-99 | a URL is same-site when its parsed host equals the start host; a URL the parser rejects is not; Frontier.AdmitSpec and Frontier.InvFacts state what the crawl keeps in its terms |
| Frontier.Admit | streamlit_app.py:136-142 | the link loop as a fold over the links; Frontier.AdmitSpec states its contract |
| Frontier.AdmitSpec | streamlit_app.py:136-142 | admitting links keeps the queue as a prefix; each new entry is a same-host, unvisited link; no duplicates arise; every same-host, unvisited link ends up queued |
| Frontier.SeedInv | streamlit_app.py:110-121 | the initial frontier (queue holds only the start URL, nothing visited) satisfies the crawl invariant |
| Frontier.InvFacts | streamlit_app.py:124-128 | under the invariant the queue has no duplicates and no visited URL; every visited URL is same-host; the visited count is within the ceiling |
| Frontier.VisitInv | streamlit_app.py:124-142 | visiting the queue head keeps the invariant, adds exactly that URL to the visited set and trail, and only appends to the discovery order (FIFO) |
| Frontier.EmptyReport | streamlit_app_client.py:132-138 | the initial report has no pages scanned and no violations |
| Frontier.AcceptsStartUrl | streamlit_app.py:282 | a start URL is accepted exactly when it begins with `http` |
| Frontier.AcceptsStartUrlExamples | streamlit_app_client.py:420-422 | `https://example.com` and `httpfoo` are accepted; `ftp://example.com` and the empty string are not |
| AppScan.RecordOf | streamlit_app.py:155-163 | the record of one violation; ClientScan.RecordsCorrespond and AppReport.RecordRowAgree state which fields it carries |
| AppScan.PageRecords | streamlit_app.py:154-163 | one record per raw violation, in order, each built from that violation and the page URL |
| AppScan.AppNext | streamlit_app.py:124-165 | one loop iteration grows the visited set by one for an unvisited head, or shrinks the queue for an already-visited head |
| AppScan.AppCrawl | streamlit_app.py:124-165 | the crawl stops only when the queue is empty or the ceiling is reached |
| AppScan.AppInitInv | streamlit_app.py:110-121 | the initial state satisfies the scan invariant |
| AppScan.AppNextInv | streamlit_app.py:124-165 | the queue head is unvisited while running; a step keeps the invariant, appends the head to the trail, extends the discovery order, and leaves records and `pages_scanned` alone when navigation fails |
| AppScan.AppCrawlInv | streamlit_app.py:124-165 | the whole crawl keeps the invariant and only extends the trail, the discovery order and the records |
| AppScan.CeilingOne | streamlit_app.py:124 | with a ceiling of one and a start page that loads, exactly the start page is scanned and only its records are kept |
| AppScan.FailedStartPage | streamlit_app.py:130-133 | a start page that fails to load leaves it visited, `pages_scanned` at 0 and no records |
| AppScan.DemoSteps | streamlit_app.py:136-142 | on a two-page site linking both ways, the first step queues only the second page and the second step queues nothing |
| AppScan.MutualLinks | streamlit_app.py:124-165 | that two-page site is crawled as [A, B] with two pages scanned |
| AppScan.AppScanner.constructor | streamlit_app.py:110-121 | the scanner starts with the start URL queued, nothing visited and an empty report, for the host the caller parsed |
| AppScan.AppScanner.EnqueueLinks | streamlit_app.py:136-142 | the new queue is the link admission applied to the old queue |
| AppScan.AppScanner.RecordViolations | streamlit_app.py:154-163 | the page's records are appended to the report |
| AppScan.AppScanner.Step | streamlit_app.py:125-165 | one iteration changes the scanner state exactly as the step function does |
| AppScan.AppScanner.Crawl | streamlit_app.py:124-165 | the loop leaves the scanner in the crawl function's final state |
| AppScan.ScanSite | streamlit_app.py:109-169 | an unparseable start URL or a failed browser set-up makes the call raise; otherwise the report is the crawl's report: the site and WCAG version are set, `pages_scanned` is within the ceiling, and every record's page is on the start host |
| ClientScan.ClientRecordOf | streamlit_app_client.py:203-211 | the client record of one violation; ClientScan.RecordsCorrespond states it agrees with the auditor app's record |
| ClientScan.ClientPageRecords | streamlit_app_client.py:202-211 | one record per raw violation, in order |
| ClientScan.ClientRecords | streamlit_app_client.py:202-220 | the mapping stops at the first violation without a selector (the IndexError the outer handler catches), keeps the records before it, and reports whether it finished |
| ClientScan.ClientRecordsStop | streamlit_app_client.py:202-220 | a violation without a selector at position i keeps exactly the records of the first i |
| ClientScan.ParsedPrefix | streamlit_app_client.py:188-193 | the links examined are the longest prefix whose URLs all parse; the next link, if any, makes the parser raise |
| ClientScan.ClientNext | streamlit_app_client.py:175-213 | one iteration grows the visited set for an unvisited head, or shrinks the queue |
| ClientScan.ClientNextLoaded | streamlit_app_client.py:186-213 | for a page that loads, the step admits the parsed links and appends the mapped records; `pages_scanned` moves only when mapping finishes; otherwise the scan aborts |
| ClientScan.ClientCrawl | streamlit_app_client.py:175-220 | the crawl stops when the queue is empty, the ceiling is reached or the scan aborted |
| ClientScan.ClientNextInv | streamlit_app_client.py:175-220 | a step keeps the scan invariant, appends the head to the trail, and only extends the discovery order and the records |
| ClientScan.ClientCrawlInv | streamlit_app_client.py:175-220 | the whole crawl keeps the invariant and only extends the discovery order and the records |
| ClientScan.MalformedStartPage | streamlit_app_client.py:216-220 | a start page with a violation lacking a selector aborts the scan with `pages_scanned` 0 and the records mapped before it |
| ClientScan.ZeroCeiling | streamlit_app_client.py:175 | a ceiling of zero or less yields the initial, empty report |
| ClientScan.RecordsCorrespond | streamlit_app_client.py:202-211 | on well-formed violations the client records carry the same page, criterion, id, severity and selector as the auditor app's |
| ClientScan.ClientAgreesWithApp | streamlit_app_client.py:124-222 | when every link parses and every violation has a selector, both crawlers visit the same pages in the same order with the same count and corresponding records |
| ClientScan.ClientScanner.constructor | streamlit_app_client.py:131-140 | the scanner starts with the start URL queued and an empty report, for the host the caller parsed |
| ClientScan.ClientScanner.EnqueueLinks | streamlit_app_client.py:186-193 | the new queue is the admission of the parsed link prefix |
| ClientScan.ClientScanner.RecordViolations | streamlit_app_client.py:202-211 | the mapped records are appended; the result says whether mapping finished |
| ClientScan.ClientScanner.Step | streamlit_app_client.py:176-213 | one iteration changes the state exactly as the step function does, and reports an abort |
| ClientScan.ClientScanner.Crawl | streamlit_app_client.py:175-220 | the loop leaves the scanner in the crawl function's final state |
| ClientScan.ClientScanSite | streamlit_app_client.py:124-222 | an unparseable start URL makes the call raise; a failed browser set-up returns the initial report; otherwise the crawl's report, with `pages_scanned` within the ceiling and every record's page on the start host |
| AppReport.AppTable | streamlit_app.py:43-51 | the auditor app's seven categories and keywords in priority order; AppReport.AppTableShape and AppReport.AppBucketSpec state what they give |
| AppReport.AppTableShape | streamlit_app.py:43-51 | the category names are distinct, none is `Other`, and no keyword is empty |
| AppReport.AppBucket | streamlit_app.py:101-107 | the bucket is `Other` or one of the seven category names |
| AppReport.AppBucketSpec | streamlit_app.py:101-107 | a category is chosen exactly when one of its keywords occurs in the lower-cased text and no earlier category's does; `Other` exactly when none occurs |
| AppReport.AppBucketEmpty | streamlit_app.py:102 | a missing or empty criterion goes to `Other` |
| AppReport.AppBucketPriority | streamlit_app.py:43-51 | a text matching two categories goes to the earlier one |
| AppReport.KeyLeTotalPreorder | streamlit_app.py:189 | ordering by (severity text, page) is a total preorder |
| AppReport.AuditRowOf | streamlit_app.py:174-183 | the row of one violation; AppReport.RecordRowAgree states it keeps the crawler's page, severity and selector |
| AppReport.RecordRowAgree | streamlit_app.py:174-183 | a crawled record's row has its page and criterion, the mapped severity, and the selector the crawler picked |
| AppReport.AuditTable | streamlit_app.py:172-193 | the audit table; AppReport.AuditTableSpec states its contract |
| AppReport.AuditTableSpec | streamlit_app.py:172-193 | the audit table has one row per violation, is a permutation of the mapped rows, is sorted by (severity text, page), and is stable for equal keys |
| AppReport.SeverityTextOrder | streamlit_app.py:189 | severity labels sort as text: Critical, Minor, Moderate, Serious |
| AppReport.AuditTableSeverityOrder | streamlit_app.py:189 | in the table every Minor row precedes every Serious row |
| AppReport.MinorBeforeSerious | streamlit_app.py:189 | in any table sorted by (severity text, page), Minor rows come before Serious rows |
| AppReport.AuditTableSorted | streamlit_app.py:189 | the audit table is sorted by (severity text, page) |
| AppReport.BuildAuditTable | streamlit_app.py:172-193 | the loop's table is the audit table: one row per violation, a permutation of the mapped rows, sorted |
| AppReport.QuickWinHints | streamlit_app.py:23-33 | the twelve quick-win hints; AppReport.QuickWins states the filter they define |
| AppReport.QuickWins | streamlit_app.py:195-200 | quick wins are exactly the rows whose criterion contains a hint, case-insensitively |
| AppReport.QuickWinsOrder | streamlit_app.py:195-200 | filtering keeps table order |
| AppReport.QuickWinsCaseInsensitive | streamlit_app.py:199 | an upper-case hint in the criterion still counts |
| AppReport.SeverityBreakdown | streamlit_app.py:202-205 | four rows, in the order Critical, Serious, Moderate, Minor |
| AppReport.SeverityBreakdownTotal | streamlit_app.py:202-205 | each count is the number of rows of that severity, and the counts sum to the table size |
| AppReport.StatementGroups | streamlit_app.py:207-224 | the statement groups for the auditor categoriser; AppReport.StatementGroupsSpec states their contract |
| AppReport.StatementGroupsSpec | streamlit_app.py:207-224 | every statement group holds exactly the violations of its (category, criterion) pair; pairs are distinct; categories are contiguous; every violation is covered; the items total the violation count |
| AppReport.StatementGroupsEmpty | streamlit_app.py:207-224 | no violations give no groups |
| AppReport.GroupForStatement | streamlit_app.py:207-224 | the nested dictionary loops produce exactly the statement groups |
| Statement.StatementItemOf | streamlit_app.py:210-218 | the item's impact is the mapped severity; its summary is the first element's issue text, or `See details` when that is missing or empty |
| Statement.CriterionGroups | streamlit_app.py:222-223 | one group per criterion, in key order |
| Statement.GroupsBy | streamlit_app.py:207-224 | the groups for any categoriser; Statement.GroupsBySpec states their contract |
| Statement.GroupsBySpec | streamlit_app.py:207-224 | grouping by any categoriser gives exact, distinct, contiguous and covering groups whose items total the input count |
| Statement.GroupsByEmpty | streamlit_app.py:207-224 | no violations give no groups |
| Statement.FillBuckets | streamlit_app.py:209-219 | after the loop, the category keys are in first-seen order, each category's criteria are in first-seen order, and each pair's list holds that pair's items in input order |
| Statement.FillHolds | streamlit_app.py:209-219 | the insertion-order fold satisfies the same bucket description |
| Statement.GroupBuckets | streamlit_app.py:207-224 | the two loops yield exactly the groups of the specification |
| Statement.ListCategory | streamlit_app.py:222-223 | the inner loop lists exactly one category's groups |
| Issues.SeverityCounts | streamlit_app_client.py:248 | the counter's keys are exactly the severity labels present, and each count is that label's number of items |
| Issues.SeverityKeysFacts | streamlit_app_client.py:72-78 | the four labels are distinct and every severity maps to one of them |
| Issues.SeverityCountsTotal | streamlit_app_client.py:248 | the four severity tallies sum to the category's size, and no other label is counted |
| Issues.SummaryOf | streamlit_app_client.py:247-257 | the entry of one category; Issues.SummaryOfSpec and Issues.SummaryPages state its contract |
| Issues.SummaryOfSpec | streamlit_app_client.py:247-257 | a summary names its category, counts that category's violations, carries the category's action, and keeps the first min(3, count) of them as examples |
| Issues.SummaryPages | streamlit_app_client.py:249 | the pages are strictly increasing, every page of the category is listed, and every listed page has a violation of that category |
| Issues.Summaries | streamlit_app_client.py:247-257 | one summary per category, in key order |
| Issues.TotalCountSortBy | streamlit_app_client.py:258 | sorting keeps the total count |
| Issues.IssuesBy | streamlit_app_client.py:239-259 | the category summary; Issues.IssuesByTotal, IssuesByOrder, IssuesByEntries and IssuesByCover state its contract |
| Issues.IssuesByTotal | streamlit_app_client.py:239-259 | the summary counts add up to the number of violations |
| Issues.IssuesByOrder | streamlit_app_client.py:258 | summaries are sorted by count, descending; equal counts keep first-seen order; the list is a permutation of the unsorted summaries |
| Issues.IssuesByEntries | streamlit_app_client.py:239-259 | every entry is the summary of a category that occurs, with a positive count |
| Issues.IssuesByCover | streamlit_app_client.py:239-259 | every violation's category has an entry |
| Issues.IssuesByEmpty | streamlit_app_client.py:239-259 | no violations give no summaries |
| Issues.FillIssueBuckets | streamlit_app_client.py:241-244 | after the loop, the keys are the categories in first-seen order and each bucket holds that category's violations in input order |
| Issues.FillIssuesHolds | streamlit_app_client.py:241-244 | the insertion-order fold satisfies the same description |
| Issues.GroupIssuesBy | streamlit_app_client.py:239-259 | the loops produce exactly the sorted summaries of the specification |
| ClientReport.CategoryNamesFacts | streamlit_app_client.py:79-87 | the seven category names are distinct and none is `Other` |
| ClientReport.ClientTable | streamlit_app_client.py:79-87 | the client app's seven categories and keywords in priority order; ClientReport.ClientTableShape and ClientReport.ClientBucketSpec state what they give |
| ClientReport.ClientTableShape | streamlit_app_client.py:79-87 | the category names are distinct, none is `Other`, and no keyword is empty |
| ClientReport.ClientBucket | streamlit_app_client.py:116-121 | the bucket is `Other` or one of the seven category names |
| ClientReport.ClientBucketSpec | streamlit_app_client.py:116-121 | a category is chosen exactly when one of its keywords occurs in the lower-cased text and no earlier category's does; `Other` exactly when none occurs |
| ClientReport.ClientBucketEmpty | streamlit_app_client.py:117 | a missing or empty text goes to `Other` |
| ClientReport.ClientBucketPriority | streamlit_app_client.py:79-87 | a text matching both structure (`title`) and forms (`form`) goes to the earlier category |
| ClientReport.ToDataFrame | streamlit_app_client.py:225-237 | the table has the six named columns and one row per violation with its fields; the severity is always one of the four labels, and Moderate when the impact is missing |
| ClientReport.Lookup | streamlit_app_client.py:271 | a dictionary lookup gives the first entry with that key, or the default when there is none |
| ClientReport.LibrariesMatchTable | streamlit_app_client.py:261-283 | both advice dictionaries are keyed by exactly the seven category names, in table order |
| ClientReport.TextsAreSpecific | streamlit_app_client.py:261-283 | no category's advice text equals the fallback text |
| ClientReport.LookupNames | streamlit_app_client.py:271 | in a dictionary keyed by the category names, a name finds its own entry and any other key finds the default |
| ClientReport.PlainActionFor | streamlit_app_client.py:261-271 | the action text of a category; ClientReport.PlainActionForSpec states its contract |
| ClientReport.WhyItMatters | streamlit_app_client.py:273-283 | the explanation of a category; ClientReport.WhyItMattersSpec states its contract |
| ClientReport.PlainActionForSpec | streamlit_app_client.py:261-271 | each category gets its own action text, which is not the fallback; any other name gets `Update this area to meet WCAG AA guidance.` |
| ClientReport.WhyItMattersSpec | streamlit_app_client.py:273-283 | each category gets its own explanation, which is not the fallback; any other name gets the fallback explanation |
| ClientReport.OtherGetsDefaults | streamlit_app_client.py:261-283 | `Other` gets both fallback texts |
| ClientReport.GroupIssuesPlain | streamlit_app_client.py:239-259 | the client summary is the grouping by the client categoriser with plain-language actions; counts add up to the violations and are sorted descending |
| Auth.DemoUser | auth/auth_module.py:158-161 | the demo admin; Auth.DemoMode and Auth.DemoLogin state when it is returned and that its credentials sign in |
| Auth.NormalizeRow | auth/auth_module.py:176-181 | one sheet record as a user; Auth.NormalizeRowSpec states its contract |
| Auth.NormalizeRowSpec | auth/auth_module.py:174-181 | a normalised user is stable under normalisation: name and password stripped, e-mail and role stripped and lower-cased |
| Auth.NormalizedField | auth/auth_module.py:177-180 | strip-then-lower is idempotent |
| Auth.UsersFrom | auth/auth_module.py:174-183 | the users the records yield; Auth.UsersFromSound and Auth.UsersFromComplete state its contract |
| Auth.UsersFromSound | auth/auth_module.py:174-183 | every loaded user is the normalisation of some row, is normalised, and has a non-empty name and e-mail |
| Auth.UsersFromComplete | auth/auth_module.py:174-183 | every row whose normalisation has a non-empty name and e-mail is loaded |
| Auth.UsersFromSnoc | auth/auth_module.py:174-183 | one more row appends its user exactly when that user is kept |
| Auth.NormalizeRows | auth/auth_module.py:174-183 | the loop's list is exactly the kept normalised rows, in order |
| Auth.LoadUsers | auth/auth_module.py:150-191 | users returned and new cache; Auth.LoadUsersSticky, EmptyLoadRetried and DemoMode state its contract |
| Auth.LoadUsersSticky | auth/auth_module.py:152-153 | once a non-empty list is loaded, every later call returns it whatever the sheet does |
| Auth.EmptyLoadRetried | auth/auth_module.py:152-191 | an empty result is not cached as final: the next call reads the sheet again |
| Auth.DemoMode | auth/auth_module.py:156-161 | with no connection and no cached users, the single demo admin is returned and nothing is cached |
| Auth.FirstMatch | auth/auth_module.py:199-206 | the index of the first user whose e-mail and password match, or the list length |
| Auth.Accepts | auth/auth_module.py:193-210 | the credential test; Auth.AcceptsSpec states its contract |
| Auth.AcceptsSpec | auth/auth_module.py:193-210 | sign-in succeeds exactly when some user has the stripped, lower-cased e-mail and the stripped password |
| Auth.AcceptsIgnoresCaseAndSpace | auth/auth_module.py:196-197 | surrounding whitespace and e-mail case do not change the outcome |
| Auth.StoredUserCanLogIn | auth/auth_module.py:174-206 | a kept sheet row's own e-mail and password are accepted |
| Auth.DemoLogin | auth/auth_module.py:156-161 | the demo credentials are accepted against the demo list |
| Auth.AuthManager.constructor | auth/auth_module.py:13-24 | a new manager is signed out, with no user fields and no cache |
| Auth.AuthManager.GetUsersFromSheet | auth/auth_module.py:150-191 | the result and the new cache are those of the cache-then-sheet load; the sign-in fields are unchanged |
| Auth.AuthManager.Authenticate | auth/auth_module.py:193-210 | success exactly when the loaded users accept the credentials; on success the fields are the first matching user's; on failure they are unchanged |
| Auth.AuthManager.CheckAuthentication | auth/auth_module.py:272-290 | signed in exactly when the session holds a user, whose fields are copied and the cache is kept; otherwise the sign-in fields are unchanged and the cache is what the login page's user load (auth/auth_module.py:229, via get_users_from_sheet) leaves, so a sheet list fills an empty cache |

## Left out

- The browser, navigation and the axe-core run are an oracle: a total function from URL to a page load (loaded with links and raw violations, navigation failed, or script failed). Each URL is visited at most once, so a fixed function per URL loses nothing. Time-outs and page content are not modelled.
- `urllib.parse.urlparse(..).netloc` is an abstract function returning the host, or nothing when the parser raises. URL syntax is not modelled.
- AppScan.ScanSite, ClientScan.ClientScanSite: an exception escaping `scan_site` is the outcome `Raised`, with no further detail. Both apps raise on a start URL that passes the `http` prefix check but that the parser rejects, because the host is parsed outside every handler. The auditor app also raises when launching the browser or opening its context or page fails.
- AppScan.AppScanner.constructor, ClientScan.ClientScanner.constructor: the host is passed in already parsed, because the scan methods parse it first and raise when that fails.
- `datetime.date.today()` is a parameter (`today`). The app's default argument `DEFAULT_MAX_PAGES` (40) is not modelled, because callers always pass the ceiling.
- AppScan.WellFormedBrowser: in the auditor app an empty node or target list raises an IndexError that nothing catches. The model makes well-formed violations a precondition of the auditor crawl instead of modelling the crash. The client app catches that error, and the model covers it (`aborted`).
- `launched` is a boolean parameter of both scan methods: whether launching the browser and opening its context and page all succeeded. The client app catches a failure of any of the three and returns the initial report. The Playwright auto-install attempt and the error messages shown are not modelled.
- Text.Lower: ASCII letters only. Python's full Unicode case mapping is not modelled.
- Python dictionaries' insertion order is modelled by a key sequence next to a `map`. The `Counter` in `severity_breakdown` is modelled by counts.
- pandas: `DataFrame` is a sequence of row records, and `sort_values` on two columns is a stable sort. `fillna("")` in `quick_wins` is the empty text, because criteria are always present strings in the model. `re.escape` and the joined regular expression are modelled as "some hint occurs, case-insensitively".
- ClientReport.ToDataFrame: the `.get(.., "")` defaults are not modelled, because every record built by the crawler has all six fields.
- Issues.CategorySummary: `examples` keeps the first three records as values. Python shares them with the input list; that aliasing is not modelled.
- Auth: the sheet read is an input (`SheetRead`): no connection, tab missing, read failed, or the records. `load_credentials`, `connect_to_sheets` and the Google client are not modelled. Sheet cells are given strings; `str()` of numbers and other cell types is not modelled.
- Auth.AuthManager.CheckAuthentication: the Streamlit session state is an optional user. An empty dictionary, which Python also treats as signed out, is modelled as no user. Of `show_login_page` only its call to `get_users_from_sheet` (auth/auth_module.py:229) is modelled, with its effect on the cache. Its rendering and the Login button are not: a click with the right password calls `authenticate` (auth/auth_module.py:260), which sets the four sign-in fields and the session user, so the contract's "sign-in fields unchanged" holds only for a run in which Login is not clicked successfully.
- Auth: the sign-up, password, admin-page and logging functions of the module are not part of this model.
- Streamlit UI, DOCX and Markdown report building, the Jinja statement template, `print` and `st.error` messages, and `playwright_setup.py` / `setup_playwright.py` are not part of this model.
