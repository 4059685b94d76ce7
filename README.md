# Bolsão de Ideias: a verified model of the dashboard core

"Bolsão de Ideias" is a dashboard for collecting, scoring and ranking service
ideas. Each idea is a record with a name, benefit, audience, business model,
cluster, lifecycle status (`avaliação`, `aprovada`, `cancelada`,
`finalizada`), author, creation date, five criterion scores from 0 to 5 and a
revenue estimate. This project models, in Dafny, the logic around those records:

- **Ranking screen** (`Ranking`, `Prioritization`):
  - the score-to-tier classifier;
  - the filter, sort and page pipeline;
  - clamping of cell edits;
  - the edit session: a map from id to edited record, with upsert, discard, save and filter changes that need confirmation;
  - the page reclamp;
  - the per-cell "modified" marks.
- **Overview indicators** (`Overview`):
  - approved revenue;
  - the new and stagnant date windows;
  - the approval rate;
  - the four-tier distribution;
  - the average score;
  - the cluster and business-model tallies in descending order;
  - the per-cluster radar averages.
- **Pager** (`Pagination`): its previous and next requests and the disabling of its buttons.
- **Command palette** (`CommandMenu`): the case-insensitive search, actions listed before services, the cyclic cursor and what a key press does.
- **Sign-in page** (`Auth`): the five password criteria and the submit gate.
- **Idea form** (`IdeaForm`): the sorted distinct cluster list, the default cluster, field updates, required-field validation and construction of the new record.
- **Spreadsheet service** (`SheetService`): the record-to-row serialiser, the URL configuration check and the decoding of the web application's answer envelope.

The shared pieces live in their own modules:

- `Domain`: the record, status, tier, total and classifier.
- `Lists`: `filter`, `slice`, counting and removal of repeats.
- `Sorting`: a stable insertion sort, both as a function and as an in-place array method.
- `Strings`: substring search, case fold, `trim`, code-unit order and decimal rendering.

Components that change state step by step are classes whose methods state the whole new state:

- `Prioritization.PrioritizationSection`
- `CommandMenu.Menu`
- `Auth.AuthForm`
- `IdeaForm.IdeaGenerator`

Pure computations are functions, with lemmas that tie them to independent characterisations.

Inputs the browser or the server provides are parameters:

- the current time (`now`, in milliseconds);
- the answer of `window.confirm` (a boolean);
- the outcome of each remote update (a boolean each);
- the result of `fetch` (an abstract `Response`);
- the locale string order `localeCompare` (any total preorder `leq`);
- the business-model mapper (`mapModel`);
- the cluster catalog (`catalog`).

## Model

| member | source | states |
|---|---|---|
| Domain.ClassifyPartition | components/PrioritizationSection.tsx:108-113 | every total falls in exactly one tier: at least 21 is Altíssima, 16 to 20 Alta, 11 to 15 Média, at most 10 Baixa |
| Domain.ClassifyMonotone | components/PrioritizationSection.tsx:108-113 | a higher total never gets a lower tier |
| Domain.TotalOfFive | components/PrioritizationSection.tsx:428 | for at most five scores, the total is the sum of criteria 0 to 4, with a missing score counted as 0 |
| Domain.TotalBounds | components/PrioritizationSection.tsx:264 | with every score in 0..5, the total lies between 0 and 5 per score |
| Domain.WellScoredTotal | components/PrioritizationSection.tsx:264 | a record with at most five scores, each in 0..5, totals between 0 and 25 |
| Domain.StatusNameInjective | components/PrioritizationSection.tsx:115-121 | distinct statuses have distinct names, so comparing names compares statuses |
| Domain.TierNameInjective | components/PrioritizationSection.tsx:375 | distinct tiers have distinct labels, so the tier filter compares tiers |
| Ranking.SetFilterOnlyNamed | components/PrioritizationSection.tsx:385-386 | a filter change sets the named filter and leaves the other two unchanged |
| Ranking.FilterRowsIsConjunction | components/PrioritizationSection.tsx:431-439 | the three filter stages, each skipped when set to `all`, select exactly the rows passing the conjunction of the three tests, in their original order |
| Ranking.FilterRowsMembership | components/PrioritizationSection.tsx:431-439 | a row survives filtering iff it was in the input and passes every active filter |
| Ranking.FilterAbsentClusterIsEmpty | components/PrioritizationSection.tsx:431-433 | filtering on a cluster no record has gives the empty list |
| Ranking.ToggleSortSpec | components/PrioritizationSection.tsx:390-396 | a click on a key sorts by that key; the direction becomes ascending iff that key was already sorted descending |
| Ranking.ToggleSortAlternates | components/PrioritizationSection.tsx:390-396 | two clicks on the same key flip the direction each time |
| Ranking.LocaleCompareSign | components/PrioritizationSection.tsx:455-456 | over a total preorder, the string comparison says "not after" exactly when the preorder holds, and it is sign-antisymmetric |
| Ranking.CompareAntisymmetric | components/PrioritizationSection.tsx:441-462 | the row comparator is sign-antisymmetric for every key and direction |
| Ranking.CompareTransitive | components/PrioritizationSection.tsx:441-462 | the row comparator is transitive when every row's sort value has one type (always for numeric keys) |
| Ranking.SortRowsSpec | components/PrioritizationSection.tsx:441-463 | the sorted rows are a permutation of the filtered rows, ordered by the comparator whenever the sort key's values have one type |
| Ranking.SortByTotalOrder | components/PrioritizationSection.tsx:441-463 | sorting by total puts totals in non-decreasing order when ascending and non-increasing order when descending |
| Ranking.SortByScoreOrder | components/PrioritizationSection.tsx:446-449 | sorting by `score_i` orders rows by criterion i, with a missing score read as 0, in the chosen direction |
| Ranking.SortByServiceOrder | components/PrioritizationSection.tsx:455-456 | sorting by name orders rows by the locale preorder, reversed when descending |
| Ranking.ProcessedMembership | components/PrioritizationSection.tsx:424-466 | a row is in the processed list iff it is an input record with its true total that passes the filters; the list is a permutation of the filtered list |
| Ranking.TotalPages | components/PrioritizationSection.tsx:468 | the page count is the ceiling of n/10: 0 for no rows, otherwise the least p with n at most 10p |
| Ranking.Page | components/PrioritizationSection.tsx:470-475 | page p holds at most 10 rows; its k-th row is row (p-1)*10+k of the input; it has exactly as many rows as remain from its start, capped at 10 |
| Ranking.PageNonEmptyIff | components/PrioritizationSection.tsx:468-475 | a page has rows iff its number is at most the page count |
| Ranking.PageOfIndex | components/PrioritizationSection.tsx:470-475 | every row appears on exactly one page, page i/10+1 |
| Ranking.RankIsPosition | components/PrioritizationSection.tsx:271 | the rank shown, page start plus index plus 1, is the row's 1-based position in the processed list |
| Ranking.ReclampSpec | components/PrioritizationSection.tsx:494-498 | the page moves to the last page only when it is past it and there are pages; otherwise it is unchanged; the result stays at least 1 and reclamping twice changes nothing |
| Ranking.ReclampShowsRows | components/PrioritizationSection.tsx:468-475 | after the reclamp, a non-empty list always shows a non-empty page |
| Ranking.WithModifications | components/PrioritizationSection.tsx:477-490 | the displayed page has as many rows as the page |
| Ranking.WithModificationsSpec | components/PrioritizationSection.tsx:477-490 | a row with a pending edit shows the edited record with its total recomputed; other rows are shown as they are; with no edits the page is unchanged |
| Ranking.ClampScore | components/PrioritizationSection.tsx:205 | a score edit stores max(0, min(5, v)): always in 0..5, v itself when v is in range |
| Ranking.SetScore | components/PrioritizationSection.tsx:204-206 | writing score i stores v at i and leaves every other score unchanged; a write past the end pads the array with holes |
| Ranking.ApplyEditSpec | components/PrioritizationSection.tsx:201-212 | a score edit stores the clamped value and nothing else; a revenue edit stores v if v is at least 0, else 0; a status edit stores the status; identity and text fields are never touched |
| Ranking.LastEditedSpec | components/PrioritizationSection.tsx:197-223 | a changed record is reported iff some row has the id; it carries that id and, with unique ids, is the edit applied to that row |
| Ranking.LocalChangeSpec | components/PrioritizationSection.tsx:196-223 | a local change keeps the length, edits exactly the rows with the id and leaves every other row unchanged; the reported record has the edited id |
| Ranking.FindByIdSpec | components/PrioritizationSection.tsx:267 | the lookup finds a record iff one has the id, and then returns the first such record |
| Ranking.UneditedRowUnmarked | components/PrioritizationSection.tsx:274-313 | a row equal to its stored original marks no score, revenue or status cell as modified |
| Ranking.ScoreEditMarksItsCell | components/PrioritizationSection.tsx:274 | after a score edit, only that criterion's cell can be marked, and it is marked iff the clamped value differs from the original score |
| Prioritization.PrioritizationSection.constructor | components/PrioritizationSection.tsx:366-372 | the screen starts with no filters, total descending, page 1, no edits and no save in progress |
| Prioritization.PrioritizationSection.FilterChange | components/PrioritizationSection.tsx:378-388 | with edits pending and the confirmation refused nothing changes; otherwise the edits are cleared, only the named filter is set and the page goes back to 1 |
| Prioritization.PrioritizationSection.Sort | components/PrioritizationSection.tsx:390-396 | the sort configuration becomes the toggle of the old one; nothing else changes |
| Prioritization.PrioritizationSection.ServiceChange | components/PrioritizationSection.tsx:398-403 | the edited record is stored under its id, replacing any earlier edit of it; nothing else changes |
| Prioritization.PrioritizationSection.CellEdit | components/PrioritizationSection.tsx:196-223 | the table's rows become the local change; the changed record, if any, is upserted into the edit map |
| Prioritization.PrioritizationSection.PendingUpdates | components/PrioritizationSection.tsx:407 | the list of updates holds each edited record exactly once, with distinct ids |
| Prioritization.PrioritizationSection.BeginSave | components/PrioritizationSection.tsx:405-409 | a save marks the screen as saving and sends every pending record once; the edits are kept |
| Prioritization.PrioritizationSection.FinishSave | components/PrioritizationSection.tsx:409-415 | the edits are cleared iff every update succeeded, otherwise all are kept; the save is over either way |
| Prioritization.PrioritizationSection.DiscardChanges | components/PrioritizationSection.tsx:418-422 | the edits are cleared iff the user confirms; nothing else changes |
| Prioritization.PrioritizationSection.GoToPage | components/PrioritizationSection.tsx:368 | the page changes to the requested one; nothing else changes |
| Prioritization.PrioritizationSection.Reclamp | components/PrioritizationSection.tsx:494-498 | the page becomes the reclamped page and never exceeds a positive page count |
| Prioritization.PrioritizationSection.Displayed | components/PrioritizationSection.tsx:470-490 | the screen shows at most 10 rows |
| Prioritization.PrioritizationSection.DisplayedSpec | components/PrioritizationSection.tsx:424-490 | the screen shows as many rows as the current page of the processed list, with the same ids in the same order; every row shows a total recomputed from its scores; a row with a pending edit shows the edited record; any other row is an input record that passes the filters |
| Overview.PotentialRevenueSpec | components/OverviewSection.tsx:70-72 | the filter-then-sum revenue equals the sum over all records of the revenue of those whose status is exactly `aprovada` |
| Overview.PotentialRevenueBounds | components/OverviewSection.tsx:70-72 | with non-negative estimates, the approved revenue lies between 0 and the revenue of all records |
| Overview.ApprovedRevenueBounds | components/OverviewSection.tsx:70-72 | the same bounds for the reference sum |
| Overview.WindowsDisjoint | components/OverviewSection.tsx:74-91 | no record is both new and stagnant, and a record without a date is neither |
| Overview.WindowCountsBounded | components/OverviewSection.tsx:74-91 | the new and stagnant counts together never exceed the number of records |
| Overview.ApprovalRate | components/OverviewSection.tsx:80-82 | the rate lies in [0, 100], is 0 with no finished records, and is 100 iff there are finished records and all of them were approved |
| Overview.ApprovedAmongTerminal | components/OverviewSection.tsx:80-81 | counting approved records among the finished ones counts every approved record |
| Overview.TierCountsSum | components/OverviewSection.tsx:94-99 | the four tier counts add up to the number of records |
| Overview.PriorityDistribution | components/OverviewSection.tsx:94-100 | the distribution lists the four tiers in the fixed order Altíssima, Alta, Média, Baixa, each with its count, and the counts sum to the number of records |
| Overview.AverageScore | components/OverviewSection.tsx:102-107 | the average is 0 for no records; otherwise average times count equals the sum of totals |
| Overview.AverageScoreBounds | components/OverviewSection.tsx:102-107 | with well-formed scores, the average lies in [0, 25] |
| Overview.SumOfTotalsBounds | components/OverviewSection.tsx:103-106 | with well-formed scores, the sum of totals lies between 0 and 25 per record |
| Overview.CountByKey | components/OverviewSection.tsx:111-120 | the loop over the records yields exactly the tally: each key once, in order of first occurrence, with its number of occurrences |
| Overview.TallySpec | components/OverviewSection.tsx:111-120 | the tally lists each key once and every key appears; each entry carries its number of occurrences (at least one); entries come in order of first occurrence; the counts sum to the number of keys |
| Overview.ChartOrderSpec | components/OverviewSection.tsx:122-123 | the chart list is a permutation of the tally, in non-increasing count order, with the same sum; entries with equal counts keep their tally order (the sort is stable) |
| Overview.ChartSpec | components/OverviewSection.tsx:111-123 | each chart names every key exactly once with its number of occurrences, in non-increasing count order, summing to the number of keys; equal counts stay in order of first occurrence |
| Overview.PortfolioBalance | components/OverviewSection.tsx:126-135 | the radar has one point per catalog cluster, in catalog order, each with full mark 25 and the mean total of that cluster's records as score |
| Overview.PortfolioBalanceSpec | components/OverviewSection.tsx:126-135 | a record counts for a cluster iff its cluster field names it; the score times the number of members is the sum of their totals; a cluster without records scores 0; with scores in 0..5 every score lies in [0, 25] |
| Overview.ComputeOverview | components/OverviewSection.tsx:66-149 | the count is the number of records; the revenue is the approved revenue; the window counts are as defined and together at most the count; the rate is the approved share of decided ideas, in [0, 100]; the distribution has four entries, one per tier in fixed order, each with that tier's count, summing to the count; the average is as defined; each chart is the ordered tally of its keys (see ChartSpec) and sums to the count; the radar is as defined |
| Pagination.RequestsStayInRange | components/Pagination.tsx:14-24 | from a page in [1, totalPages], previous asks for page-1 only above page 1, next asks for page+1 only below the last page, and any requested page is in [1, totalPages] |
| Pagination.DisabledIffNoRequest | components/Pagination.tsx:32-44 | while the pager is shown, a button is disabled exactly when pressing it requests nothing |
| Pagination.SomeDirectionAvailable | components/Pagination.tsx:10-24 | while the pager is shown (more than one page), at least one direction requests a page |
| CommandMenu.FilteredServicesSpec | components/CommandMenu.tsx:24-27 | an empty term gives no services; otherwise the results are the first matches in original order, exactly min(10, number of matches) of them, so all of them when there are at most 10; each result contains the term ignoring case |
| CommandMenu.AllItems | components/CommandMenu.tsx:29-32 | the list holds the matching actions and the matching services |
| CommandMenu.AllItemsSpec | components/CommandMenu.tsx:29-32 | the matching actions come first, in order, followed by the matching services; an empty term lists every action and no service |
| CommandMenu.NextIndexSpec | components/CommandMenu.tsx:61-63 | ArrowDown moves to the next item, wrapping from the last to the first |
| CommandMenu.PrevIndexSpec | components/CommandMenu.tsx:64-66 | ArrowUp moves to the previous item, wrapping from the first to the last |
| CommandMenu.CursorSpec | components/CommandMenu.tsx:61-66 | both moves keep the cursor in [0, max(len, 1)) and undo each other |
| CommandMenu.KeyResultSpec | components/CommandMenu.tsx:57-72 | keys do nothing while the menu is closed; Escape closes it; the arrows move the cursor without effect; Enter selects the item under the cursor and does nothing when there is none |
| CommandMenu.ServiceExplorerIsAnAction | components/CommandMenu.tsx:21 | the section opened for a service is one of the listed actions |
| CommandMenu.EffectsNavigateToKnownSections | components/CommandMenu.tsx:47-55 | a key press that navigates goes either to the explorer or to the section of one of the listed actions |
| CommandMenu.Menu.constructor | components/CommandMenu.tsx:12-13 | the menu starts with an empty search and the cursor on the first item |
| CommandMenu.Menu.SetOpen | components/CommandMenu.tsx:35-40 | opening the menu clears the search and resets the cursor |
| CommandMenu.Menu.SetSearchTerm | components/CommandMenu.tsx:42-45 | a change of search term resets the cursor |
| CommandMenu.Menu.KeyDown | components/CommandMenu.tsx:57-72 | a key press moves the cursor and yields the effect the key rules give over the current items; the search and the open state are unchanged |
| Auth.EvaluateSpec | components/AuthPage.tsx:53-59 | the length criterion holds iff the password has at least 8 UTF-16 code units (at least 8 characters when none lies outside the Basic Multilingual Plane); each class criterion holds iff some character of the class occurs |
| Auth.AnyCharIff | components/AuthPage.tsx:55-58 | a character-class test holds iff some character of the string is in the class |
| Auth.AuthForm.constructor | components/AuthPage.tsx:23-36 | the page starts in the login view with empty fields and no criterion holding |
| Auth.AuthForm.SetLoginView | components/AuthPage.tsx:94-97 | the tabs change the view only |
| Auth.AuthForm.SetName | components/AuthPage.tsx:109 | typing a name changes the name only |
| Auth.AuthForm.SetEmail | components/AuthPage.tsx:114 | typing an e-mail changes the e-mail only |
| Auth.AuthForm.PasswordChange | components/AuthPage.tsx:47-61 | the password is stored; the criteria are recomputed in the register view and left as they were in the login view |
| Auth.AuthForm.Submit | components/AuthPage.tsx:64-79 | the login view signs in without looking at the criteria; the register view registers iff all stored criteria hold, and otherwise asks nothing |
| Auth.AuthForm.SubmitChecked | components/AuthPage.tsx:64-79 | the gate as intended: registering happens iff the submitted password meets all five criteria |
| Auth.StaleCriteriaScenario | components/AuthPage.tsx:52-74 | with name and e-mail filled in, a strong password typed while registering, then a weak one typed in the login view, lets the gate as written register the weak password |
| Auth.StaleCriteriaScenarioChecked | components/AuthPage.tsx:52-74 | the same events, with name and e-mail filled in, under the intended gate register nothing |
| IdeaForm.NonEmptyClusters | components/IdeaGeneratorSection.tsx:30 | the kept clusters are exactly the non-empty clusters of the records |
| Lists.Dedup | components/IdeaGeneratorSection.tsx:30 | removing repeats keeps exactly the same set of values |
| Lists.DedupDistinct | components/IdeaGeneratorSection.tsx:30 | after removing repeats, no value occurs twice |
| Lists.DedupFirstOccurrence | components/OverviewSection.tsx:111-120 | the values that remain keep the order of their first occurrences |
| IdeaForm.UniqueClustersMembership | components/IdeaGeneratorSection.tsx:30 | a cluster is offered iff it is non-empty and some record has it |
| IdeaForm.UniqueClustersDistinct | components/IdeaGeneratorSection.tsx:30 | each cluster is offered once |
| IdeaForm.UniqueClustersOrdered | components/IdeaGeneratorSection.tsx:30 | the clusters are offered in strictly increasing code-unit order |
| IdeaForm.DefaultClusterSpec | components/IdeaGeneratorSection.tsx:33-37 | a chosen cluster is kept; an empty choice takes the first cluster when there is one; applying the default twice changes nothing |
| IdeaForm.SetFieldSpec | components/IdeaGeneratorSection.tsx:39-42 | a field change stores the value in the named field and leaves the other fields unchanged |
| IdeaForm.BuildNewServiceSpec | components/IdeaGeneratorSection.tsx:54-62 | the new record is under evaluation; name, benefit and audience are the inputs with their surrounding white space cut off; model and cluster are as chosen; the author is the trimmed input, or the signed-in user when that trims to nothing |
| IdeaForm.WhitespaceNameAccepted | components/IdeaGeneratorSection.tsx:45-55 | a name of one space passes the check as written and is stored as the empty name |
| IdeaForm.TrimmedCheckKeepsTextFields | components/IdeaGeneratorSection.tsx:54-62 | with the check on trimmed values, the stored name, benefit, audience, cluster and model are never empty |
| IdeaForm.IdeaGenerator.constructor | components/IdeaGeneratorSection.tsx:17-28 | the form starts empty, with the first business model and the signed-in user's name |
| IdeaForm.IdeaGenerator.ApplyDefaultCluster | components/IdeaGeneratorSection.tsx:33-37 | the cluster field becomes the default cluster; nothing else changes |
| IdeaForm.IdeaGenerator.Change | components/IdeaGeneratorSection.tsx:39-42 | the form becomes the field change; error and submitting flag are unchanged |
| IdeaForm.IdeaGenerator.AddIdea | components/IdeaGeneratorSection.tsx:44-74 | a missing required field sets the required-fields error and sends nothing; otherwise the built record is sent; on success the form resets and the error clears; on failure the form is kept and the failure message is set; submitting is over either way |
| IdeaForm.IdeaGenerator.AddIdeaChecked | components/IdeaGeneratorSection.tsx:44-74 | the same handler with the check on trimmed values: any record sent has a non-empty name, benefit and audience |
| SheetService.ServiceToSheetDataFields | services/googleSheetService.ts:55-64 | id, name, need, cluster and business model are copied; a missing audience or author becomes the empty string and a missing date the empty cell; a missing status is written as `avaliação`, a present one by its name |
| SheetService.ServiceToSheetDataNumbers | services/googleSheetService.ts:65-70 | the five score columns hold criteria 0 to 4, a missing one as 0, and add up to the record's total; revenue is the estimate or 0 |
| SheetService.StatusFromName | services/googleSheetService.ts:62 | a status read back from the column is the one whose name is written there |
| SheetService.StatusFromNameInverse | services/googleSheetService.ts:62 | every status written to the column reads back as itself |
| SheetService.SheetRoundTrip | services/googleSheetService.ts:55-71 | a record with every field present and five scores is read back unchanged by the model's own row reader `SheetRowToService` (the reader of the web application is not part of this model) |
| SheetService.SheetKeepsIndicators | services/googleSheetService.ts:55-71 | for any record with at most five scores, the row keeps the status shown, the total, the revenue and the date |
| SheetService.ApiRequestOk | services/googleSheetService.ts:21-50 | a request succeeds iff the URL is configured and an OK response carries a JSON envelope whose `success` is not `false`; it then returns the envelope's data |
| SheetService.ApiRequestErrors | services/googleSheetService.ts:21-49 | without a usable URL the configuration error is raised as it is; a network failure, an HTTP error (status, status text and body) and a `success: false` envelope (its error, or the default message) are re-reported behind the communication prefix |
| SheetService.ApiErrorPrefix | services/googleSheetService.ts:46-49 | any failure after the URL check carries the communication prefix |
| SheetService.PlaceholderRefused | services/googleSheetService.ts:22 | the placeholder URL counts as not configured |
| Sorting.SortInPlace | components/PrioritizationSection.tsx:442 | sorting the array in place leaves it equal to the stable insertion sort of its old contents |
| Sorting.InsertInPlace | components/PrioritizationSection.tsx:442 | one insertion step puts element i into the sorted prefix and leaves the rest of the array unchanged |
| Sorting.SortByPermutation | components/PrioritizationSection.tsx:442 | sorting is a permutation |
| Sorting.SortByOrdered | components/PrioritizationSection.tsx:442 | with a sign-antisymmetric, transitive comparator the result is ordered |
| Sorting.SortBySortedIsIdentity | components/PrioritizationSection.tsx:442 | sorting an already ordered list leaves it unchanged (the sort is stable) |
| Sorting.SortBySum | components/OverviewSection.tsx:122-123 | sorting keeps the sum of any weight |
| Sorting.SortByStable | components/OverviewSection.tsx:122-123 | the sort keeps the original order among elements the comparator ties |
| Lists.KeepMembership | components/PrioritizationSection.tsx:432 | an element survives a filter iff it was in the list and passes the test |
| Lists.KeepKeep | components/PrioritizationSection.tsx:431-439 | two successive filters select the same list as one filter on the conjunction |
| Lists.KeepIsSubsequence | components/PrioritizationSection.tsx:432 | a filter keeps the surviving elements in their original order |
| Strings.ContainsIff | components/CommandMenu.tsx:26 | `includes` holds iff the needle occurs at some position |
| Strings.LowerChar | components/CommandMenu.tsx:26 | a capital A to Z or Latin-1 À to Þ (but not ×) becomes the character 32 code points above it, its own lower-case letter; every other character is kept |
| Strings.Lower | components/CommandMenu.tsx:26 | the lower-cased string has the same length, and each capital, A to Z or Latin-1 À to Þ, becomes its own lower-case letter (code point plus 32); every other character is kept |
| Strings.LowerIdempotent | components/CommandMenu.tsx:26 | folding a folded string changes nothing, so the search ignores any case folding already applied |
| Strings.TrimSpec | components/IdeaGeneratorSection.tsx:55-61 | `trim` returns a contiguous part of the input with no white space at either end, and only white space is cut off |
| Strings.TrimEmptyIff | components/IdeaGeneratorSection.tsx:61 | a string trims to nothing iff it is white space only |
| Strings.CodeUnitLeqTotal | components/IdeaGeneratorSection.tsx:30 | the default sort order compares any two strings |
| Strings.CodeUnitLeqAntisymmetric | components/IdeaGeneratorSection.tsx:30 | two strings each not after the other are equal |
| Strings.CodeUnitLeqTransitive | components/IdeaGeneratorSection.tsx:30 | the default sort order is transitive |
| Strings.Utf16LengthBounds | components/AuthPage.tsx:53 | the UTF-16 length lies between the number of characters and twice that; it equals the number of characters iff no character lies outside the Basic Multilingual Plane |
| Strings.NatToString | services/googleSheetService.ts:37 | the HTTP status is rendered as a non-empty string of decimal digits whose value is the status, with no leading zero |

## Left out

- Rendering, charts, tooltips, theme and CSS classes: these are presentation only.
- `fetch`, `Promise.all` and the remote `addService`/`updateService`: each network call is an outcome parameter.
  - A save is one boolean per update. Only the all-or-nothing clearing rule is kept.
  - Edits made while a save is in flight are cleared with the rest on success, as in the source. No interleaving is modelled.
- `response.text()` and `response.json()`: the model does not capture these throwing. An unparsable body is one `NotJson` case, and the message it carries is abstract.
- `window.confirm`: a boolean parameter.
- `new Date()`: `now` is a parameter in milliseconds, and a day is 86 400 000 ms. Calendar arithmetic (`setDate`, daylight saving) is not modelled.
- `Number(...)` parsing, `NaN` and floating-point scores: inputs are integers. Rates and averages are exact `real`s, and `toFixed` is not modelled.
- `localeCompare`: the locale order is not modelled. Any total preorder `leq` stands in for it.
- Ranking.SortRowsSpec: the whole-list order is proved only when the sort key's values all have one type. The source's comparator mixes `localeCompare` with `<` when a field holds strings for some records and nothing for others. Such a comparator is not consistent, and ECMAScript then leaves the resulting order to the engine; the model stands in its stable insertion sort, so for mixed-type keys it states only the permutation, and the fact that neighbours are in comparator order (Ranking.SortRowsSpec) holds of that insertion sort, not of every engine.
- Auth.Evaluate: the length criterion counts UTF-16 code units, as JavaScript's `length` does, but the four class tests look at whole characters. All four classes are ASCII sets, and a character outside the Basic Multilingual Plane, like each of its surrogate halves, belongs to none of them, so the answers agree.
- Strings.Lower: case folding covers ASCII and the Latin-1 capitals only. The rest of Unicode `toLowerCase` is not modelled.
- Strings.CodeUnitLeq: strings are sequences of Dafny characters. The UTF-16 code-unit order of `sort()` therefore matches only outside the surrogate range.
- Object key order: `Object.entries` lists keys in insertion order, as modelled. The source puts integer-like keys first; that reordering is not modelled.
- The `total` field of a record read back from the edit map: it is recomputed, as the source does. A stale `total` inside the edited snapshot is not modelled.
- SheetService.ServiceToSheetData: the creation date is an integer timestamp. A falsy date (an empty string in the source) is not distinguished from a missing one.
- The HTML `required` attributes of the sign-in and idea forms: browser-side validation is not modelled.
- The pending-changes label ("alteração não salva" / "alterações não salvas") is not modelled. So are the viewer role's disabled inputs and the chart toggle.
- `mapBusinessModel`, the cluster catalog and the criteria catalog are not part of this model. They are the parameters `mapModel` and `catalog`, and the five criteria are indices 0 to 4.
- The bar-click handler of the overview: it is a catalog lookup that only triggers navigation.

## Findings

| source | as written | input that shows it | evidently intended | confidence | as-written member | corrected member |
|---|---|---|---|---|---|---|
| components/AuthPage.tsx:52-74 | the register gate reads the stored criteria, which are recomputed only by password changes in the register view | type `Abcdef1!` in the register view, switch to login, type `x`, switch back to register and submit: `x` is registered | the gate checks the password being submitted | not executed | Auth.StaleCriteriaScenario | Auth.AuthForm.SubmitChecked |
| components/IdeaGeneratorSection.tsx:45-57 | validation checks the untrimmed fields, but the record stores them trimmed | a name of one space `" "` with the other fields filled passes, and the idea is stored with an empty name | a field of white space only counts as empty | not executed | IdeaForm.WhitespaceNameAccepted | IdeaForm.IdeaGenerator.AddIdeaChecked |
