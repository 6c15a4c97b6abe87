# Transcriptorator list and search pages, modelled in Dafny

Transcriptorator is a web catalogue of recorded Minnesota legislative
proceedings. This project models the two pieces of logic its list page and
search page hold, apart from rendering:

- **Session list** (`app/page.tsx`): the loaded sessions, newest first, are
  narrowed by a chamber selector (`all`, `house`, `senate`) and by optional
  "From" and "To" dates. The dates are compared as strings with JavaScript's
  `<`. A "Clear filters" button appears while any filter is active and resets
  all three. A footer reports "N of M sessions".
- **Transcript search** (`app/search/page.tsx`): `runSearch` moves the page
  state `(results, loading, searched, error)` through one search. A blank
  query empties the results and sends nothing. Any other query sends the
  trimmed text to the backend's full-text procedure and records the answer.
  Around it sit the URL `q` parameter rule, the "N result(s)" label, the
  chamber badge, the "Jump to" link and the "No results" condition.

Modules, one per concern:

| file | module | contents |
|---|---|---|
| `wrappers.dfy` | `Wrappers` | `Option`, for the source's `null` values and `??` |
| `database.dfy` | `Database` | `Chamber`, `Session`, `SearchResult` records |
| `lex_order.dfy` | `LexOrder` | JavaScript's string `<`, shown to be a strict total order |
| `iso_dates.dfy` | `IsoDates` | on `YYYY-MM-DD` strings, string order is calendar order |
| `numerals.dfy` | `Numerals` | decimal rendering of numbers and its inverse |
| `text.dfy` | `Text` | `String.prototype.trim` and first-letter capitalisation |
| `session_list.dfy` | `SessionList` | the filter, the clear button, the counts |
| `url_params.dfy` | `UrlParams` | `URLSearchParams` `get`/`set`/`delete` and the `q` rule |
| `search.dfy` | `Search` | the `runSearch` state machine, view conditions, labels, link |

The backend call is not modelled as a call. `BeginSearch` covers everything
before the `await`. It returns the request that would be sent, or none.
`CompleteSearch` covers everything after the `await` and takes the backend's
answer as a parameter. `RunSearch` composes the two. JavaScript's `filter`
appears twice: `FilterSessions` is the reference definition and
`ApplyFilter` is the visiting loop. The loop is proved equal to the
reference.

## Model

| member | source | states |
|---|---|---|
| `SessionList.Keeps` | app/page.tsx:46-49 | definition of the filter predicate, no contract of its own; its meaning is proved in `FilterSound`, `FilterMembership` and `DateBoundsAreCalendarBounds` |
| `SessionList.FilterSessions` | app/page.tsx:45-50 | every session shown is one of the loaded sessions and passes all active conditions; never more sessions than were loaded |
| `SessionList.ApplyFilter` | app/page.tsx:45-50 | visiting the sessions in order and appending each kept one yields exactly the reference filter |
| `SessionList.FilterMembership` | app/page.tsx:45-50 | a session is shown if and only if it is loaded and meets every active condition (soundness and completeness) |
| `SessionList.FilterMultiplicity` | app/page.tsx:45-50 | counted with repetitions, the shown list holds every copy of each kept session and no copy of any other |
| `SessionList.FilterComplete` | app/page.tsx:45-50 | any loaded session meeting every active condition is shown |
| `SessionList.FilterSound` | app/page.tsx:46-48 | a shown session has the selected chamber when one is selected, a date not before a non-empty "From" and not after a non-empty "To" |
| `SessionList.FilterIsSubsequence` | app/page.tsx:45-50 | the shown list is the loaded list with some sessions dropped and the rest in their loaded order |
| `SessionList.FilterKeepsDateOrder` | app/page.tsx:30 | a list loaded newest-first stays newest-first after filtering |
| `SessionList.FilterIdentityIff` | app/page.tsx:45-50 | the filter returns the loaded list unchanged exactly when it excludes none of it |
| `SessionList.NoFiltersKeepAll` | app/page.tsx:45-50 | with chamber `all` and both dates empty, the whole list is shown unchanged |
| `SessionList.DateBoundsAreCalendarBounds` | app/page.tsx:47-48 | for ISO dates the string comparisons keep exactly the sessions from the "From" day through the "To" day of the calendar |
| `SessionList.ClearVisible` | app/page.tsx:96 | the button condition holds exactly when the filters differ from chamber `all` with both dates empty |
| `SessionList.ClearVisibleIffFilterActive` | app/page.tsx:96 | the clear button is shown exactly when the current filters would hide some possible session |
| `SessionList.ClearFilters` | app/page.tsx:98-102 | after clearing, the button is hidden and the filter shows every list unchanged |
| `SessionList.SessionCounts` | app/page.tsx:168 | N is the length of the filtered list and M the length of the loaded list; N never exceeds M, and equals it exactly when no loaded session is excluded |
| `LexOrder.Less` | app/page.tsx:47-48 | definition of JavaScript's string `<`, no contract of its own; its order laws are the `LexOrder` lemmas below |
| `LexOrder.LessIrreflexive` | app/page.tsx:47-48 | no date string is smaller than itself |
| `LexOrder.LessAsymmetric` | app/page.tsx:47-48 | two strings are never smaller than each other |
| `LexOrder.LessTransitive` | app/page.tsx:47-48 | the string comparison is transitive |
| `LexOrder.LessTotal` | app/page.tsx:47-48 | any two strings are equal or one is smaller |
| `LexOrder.AtMostIsLessOrEqual` | app/page.tsx:47-48 | "not smaller than" means "equal or larger", so the kept dates are those at or past each bound |
| `LexOrder.PrefixIsLess` | app/page.tsx:47-48 | a proper prefix compares smaller |
| `LexOrder.LessConcat` | app/page.tsx:47-48 | strings with equally long prefixes compare by prefix first, and by the rest only on a tie |
| `IsoDates.DigitsOrder` | app/page.tsx:47-48 | equally long digit strings compare as the numbers they denote |
| `IsoDates.StringOrderIsCalendarOrder` | app/page.tsx:47-48 | on `YYYY-MM-DD` strings, string `<` is year, then month, then day order |
| `Database.ChamberName` | types/database.ts:6 | a chamber's name is a non-empty lower-case word |
| `Text.Trim` | app/search/page.tsx:24 | the result is a slice of the input that neither starts nor ends with whitespace, with only whitespace outside it |
| `Text.TrimEmptyIffBlank` | app/search/page.tsx:24 | `q.trim()` is empty (falsy) exactly when every character of `q` is whitespace |
| `Text.TrimIdempotent` | app/search/page.tsx:24 | a general law of `trim`: trimming a trimmed string changes nothing |
| `Text.Capitalize` | app/search/page.tsx:152-153 | same length, every character after the first unchanged, the first not a lower-case letter, an empty string stays empty |
| `Text.CapitalizeRoundTrip` | app/search/page.tsx:152-153 | lower-casing the capitalised first letter restores a lower-case word |
| `Search.BeginSearch` | app/search/page.tsx:24-40 | a blank query sends nothing, empties the results and clears `searched`; any other query sets `loading`, clears the error and sends the trimmed non-empty query with `match_count` 50 and all three filters null |
| `Search.CompleteSearch` | app/search/page.tsx:42-49 | loading ends and `searched` is set whatever the answer; an error is recorded and keeps the previous results; rows replace the results, with null meaning none |
| `Search.RunSearch` | app/search/page.tsx:23-50 | the whole transition: blank queries touch only `results` and `searched`; other queries end not loading, searched, and with the error or the rows of the answer |
| `Search.ShowsSpinner` | app/search/page.tsx:118 | definition of the "Searching…" condition, no contract of its own; used by `ViewBeforeSearch` and `ViewAfterSearch` |
| `Search.ShowsError` | app/search/page.tsx:124 | definition of the error-line condition (a non-empty message), no contract of its own; used by `ViewBeforeSearch` and `ViewAfterSearch` |
| `Search.ShowsNoResults` | app/search/page.tsx:130 | definition of the "No results" condition, no contract of its own; used by the view lemmas |
| `Search.ShowsResults` | app/search/page.tsx:136 | definition of the result-list condition, no contract of its own; used by the view lemmas |
| `Search.NoResultsExcludesResults` | app/search/page.tsx:130-136 | "No results" and the result list never show together, in any state |
| `Search.ViewBeforeSearch` | app/search/page.tsx:17-20 | in the initial state the page shows no spinner, no error, no results and no "No results" line |
| `Search.ViewAfterSearch` | app/search/page.tsx:118-136 | after a blank query neither "No results" nor results show; after a real search there is no spinner and "No results" shows exactly when the list is empty; rows never show an error; a failure shows its error exactly when the message is non-empty, beside any earlier results |
| `Search.ResultCountLabel` | app/search/page.tsx:139 | the label starts with the count's digits and ends in `s` exactly when the count is not 1 |
| `Search.ResultCountLabelRoundTrip` | app/search/page.tsx:139 | the label reads back as its count, with the noun singular exactly for 1 |
| `Search.ParseResultCountLabelExact` | app/search/page.tsx:139 | the label reader accepts only the text the page writes: whatever reads as count n is exactly the label for n (so no `00 results`, no `2 result`) |
| `Search.ChamberLabel` | app/search/page.tsx:152-153 | the badge starts with a capital letter, and lower-casing that letter gives back the chamber's name |
| `Search.ChamberLabelInjective` | app/search/page.tsx:152-153 | the two chambers get different badges |
| `Search.JumpLink` | app/search/page.tsx:170 | for a slug without `?`, a reader of `/session/<slug>?t=<n>` links recovers from the link the slug and the start second it was built from |
| `Search.SessionLinkParses` | app/search/page.tsx:170 | `/session/` + slug + `?t=` + a rendered integer reads back as that slug and integer whenever the slug has no `?` |
| `Search.ParseJumpLinkExact` | app/search/page.tsx:170 | the link reader accepts only links the page builds: a link that reads as (slug, t) has a slug without `?` and is exactly the link for that slug and t (so no `?t=0050`) |
| `Numerals.NatToString` | app/search/page.tsx:139 | `{results.length}`: at least one decimal digit, with no leading zero, and 0 is exactly `0` |
| `Numerals.IntToString` | app/search/page.tsx:170 | `${start_seconds}` for an integer: begins with a digit exactly when the number is non-negative; a negative number is the minus sign followed by the rendering of its magnitude |
| `Numerals.NatToStringRoundTrip` | app/search/page.tsx:139 | the rendered count reads back as the count |
| `Numerals.IntToStringRoundTrip` | app/search/page.tsx:170 | a rendered start second, sign included, reads back as itself |
| `Numerals.NumeralIsRendering` | app/search/page.tsx:139 | every digit string without a leading zero is the rendering of the number it denotes, so rendering is onto the numerals |
| `Numerals.ParseIntExact` | app/search/page.tsx:170 | the integer reader accepts only renderings: text that reads as n is exactly how n is written (no leading zeros, no `-0`) |
| `UrlParams.Get` | app/search/page.tsx:54 | `searchParams.get("q")` (also at line 16): absent exactly when no pair carries the name; its laws are `GetIsFirstPair`, `GetPastDelete` and `GetAfterSet` |
| `UrlParams.GetIsFirstPair` | app/search/page.tsx:54 | when the name is present, `get` answers the value of the first pair carrying it, whatever later pairs hold |
| `UrlParams.Delete` | app/search/page.tsx:70 | `params.delete("q")`: the result keeps only pairs of the input and none carries the name; its laws are `DeleteIdempotent`, `DeleteAfterSet` and `OtherNamesUnchanged` |
| `UrlParams.Set` | app/search/page.tsx:68 | `params.set("q", value)` as the URL Standard defines it; definition, no contract of its own; its laws are `GetAfterSet`, `SetLeavesOnePair`, `DeleteAfterSet` and `OtherNamesUnchanged` |
| `UrlParams.QueryParamUpdate` | app/search/page.tsx:66-71 | `q` holds the typed value when it is non-empty and is absent when it is empty, there is at most one `q`, and every other parameter is unchanged |
| `UrlParams.GetAfterSet` | app/search/page.tsx:68 | after `set`, `get` answers the new value |
| `UrlParams.SetLeavesOnePair` | app/search/page.tsx:68 | after `set`, exactly one pair carries the name |
| `UrlParams.DeleteAfterSet` | app/search/page.tsx:68 | `set` changes nothing but the pairs with its name |
| `UrlParams.DeleteIdempotent` | app/search/page.tsx:70 | deleting a name twice is deleting it once |
| `UrlParams.OtherNamesUnchanged` | app/search/page.tsx:67-71 | neither `set` nor `delete` of `q` changes what another name reads |

## Left out

- Fetching the sessions and the search rows from the backend (app/page.tsx:22-43, app/search/page.tsx:33-40) is an external service. The rows, or the error, are parameters.
- The session list's loading, error and "No sessions match" branches (app/page.tsx:111-127, 166) only choose markup around the filter result, so they are not modelled.
- Debouncing with `setTimeout`/`clearTimeout` (app/search/page.tsx:74-78, 83) is timing. So is any overlap between two searches in flight. Each `RunSearch` is one search run to completion.
- The effect that searches the initial `?q=` (app/search/page.tsx:53-60) and the form submit (81-85) both just call `runSearch`, which `RunSearch` models. `setQuery` just stores the typed text.
- `router.replace` and the serialisation of `URLSearchParams` into a query string are library behaviour. Only the `get`/`set`/`delete` semantics of the URL Standard's `URLSearchParams` are modelled.
- `formatDate`, `formatTimestamp` and `formatDuration` (lib/utils) are not part of this model.
- The session page and its player (app/session/[slug]/page.tsx, app/session/[slug]/SessionPlayer.tsx) are not part of this model. These are the segment binary search, the scroll suppression and the YouTube API.
- `LexOrder.Less` compares Dafny code points, and JavaScript compares UTF-16 code units. The two orders differ only on strings with characters outside the Basic Multilingual Plane, which dates never contain.
- `Text.Capitalize`: upper-cases only the ASCII letters `a`-`z`. JavaScript's `toUpperCase` covers all of Unicode and can lengthen a string. The only inputs at the call site are `house` and `senate`.
- `Search.JumpLink`: reads the link back with `ParseJumpLink`, a reader written for this model that accepts only the links `JumpLink` builds (`ParseJumpLinkExact`), not with the session page's route matching and `parseInt` (app/session/[slug]/page.tsx:10, 53). It requires a slug without `?`. The source puts the slug into the link without encoding it. So a slug with `?` would not read back, a slug with `#` would turn `?t=…` into a fragment so the page sees no `t`, and a slug with `/` would not match the one-segment session route. Nothing here promises what the browser does with such links.
- `Database.SearchResult` holds `startSeconds` as an integer. The source's `number` could be fractional, and the link would then print a decimal fraction. That rendering is not modelled.
- `Numerals.IntToString`: renders every integer in plain decimal. JavaScript does so only below 10^21 in magnitude and prints larger numbers in exponent form (`1e+21`). Above 2^53 a `number` cannot hold every integer at all. Start seconds and counts stay far below both bounds, so these cases are not modelled.
