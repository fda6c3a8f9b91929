# Episode timing and watchlist state of a show-tracking web app

This project is a Dafny model of the client-side logic of a watchlist web
application. The app has two list pages. The home page shows every show. The
watch-list page shows the shows a user bookmarked. Both pages keep a `movies`
list in component state and derive two values per show from its start and end
dates:

- a status, which is Soon, Ongoing or Finished;
- a countdown to the next weekly episode.

A one-second interval recomputes both values for every row. Handlers replace
the list when a rating changes or a show leaves the watch list. The grid shows
only the rows whose title contains the search term, ignoring case. The home
page sorts its rows by start date.

Modules:

- `Timing` (`timing.dfy`): `getEpisodeStatus` and `getNextEpisodeCountdown`.
  Timestamps are integer milliseconds. The current time `now` is a parameter.
  The countdown is a record of days, hours, minutes and seconds, or the
  "airing now" case.
- `Lists` (`lists.dfy`): the `map` and `filter` the pages apply, and the
  subsequence relation.
- `Text` (`text.dfy`): `toLowerCase` on ASCII letters, `includes`, and the
  title test used by the search.
- `Movies` (`movies.dfy`): the `Movie` record, the `MovieWithTimer` row, and
  the list transformations both pages use. A `timer` or `computedStatus` that
  holds the empty string is `None`.
- `WatchListPage` (`watch_list.dfy`): class `WatchList`, holding the
  watch-list page's state and handlers.
- `HomePage` (`home.dfy`): class `Home`, the page's own copy of the timing
  functions, and the in-place stable insertion sort by start date.

Backend answers are parameters of the handlers. A `Reply` is either an error
or data that may be null. So every error path of the pages is part of the
model.

When `now` is exactly an episode time, one might expect the countdown to give
the "Episode airing now or just released." text. But `nextEpisodeDate` is
computed from `now` and always lies strictly after it
(`Timing.NextEpisodeDate`), so the `now < nextEpisodeDate` test always holds
and that text is never produced (`Timing.AiringNowUnreachable`). Exactly on an
episode time the countdown reads a full week (`Timing.CountdownOnBoundary`).

How the arithmetic is modelled:

- `Math.floor` of a quotient by a positive divisor is Dafny's `/`.
- `Math.floor((t / u) % n)` on a non-negative `t` is `(t / u) % n`.
- The quotients such as `timeDiff / 3600000` are doubles. They are not
  integers and are rounded, but their floors agree with integer `/` and
  `%`. A time difference is at most one week (604800000 ms, far below 2^53)
  and every divisor is at least 1000. So the gap between such a quotient and
  the next integer is larger than the rounding error, and rounding never
  carries a quotient up to the next integer.

## Model

| member | source | states |
|---|---|---|
| `Timing.EpisodeStatus` | src/app/watch-list/page.tsx:350-358 | Exactly one status: Soon iff now < start; Finished iff start <= now and now > end; Ongoing iff start <= now <= end |
| `Timing.StatusText` | src/app/watch-list/page.tsx:355-357 | Every status string is non-empty, so a computed status is truthy |
| `Timing.BoundariesAreOngoing` | src/app/watch-list/page.tsx:355-357 | now == start and now == end both give Ongoing, because both tests are strict |
| `Timing.InvertedWindow` | src/app/watch-list/page.tsx:355-357 | With end < start, the answer is Soon below the start and Finished from the start on; it is never Ongoing |
| `Timing.StatusMonotone` | src/app/watch-list/page.tsx:350-358 | As now grows the status only moves forward: Soon, then Ongoing, then Finished |
| `Timing.WeeksSinceStart` | src/app/watch-list/page.tsx:365-367 | The whole number of weeks w with start + w*week <= now < start + (w+1)*week, which is the floor of the quotient, also for negative differences |
| `Timing.NextEpisodeDate` | src/app/watch-list/page.tsx:368-370 | now < nextEpisodeDate <= now + one week, and nextEpisodeDate is start plus a whole number of weeks; this holds also when now < start |
| `Timing.NextEpisodeCountdown` | src/app/watch-list/page.tsx:360-383 | `getNextEpisodeCountdown`, with no contract of its own. What it promises is proved in `AiringNowUnreachable`, `CountdownBounds`, `CountdownReconstruction`, `CountdownUnique` and `CountdownOnBoundary` |
| `Timing.NextEpisodeIsEarliest` | src/app/watch-list/page.tsx:365-370 | No weekly boundary start + k*week that is after now comes before nextEpisodeDate |
| `Timing.AiringNowUnreachable` | src/app/watch-list/page.tsx:372-382 | The `now < nextEpisodeDate` test always holds; the "airing now" text is never returned |
| `Timing.CountdownBounds` | src/app/watch-list/page.tsx:373-378 | 0 <= days <= 7, hours < 24, minutes < 60, seconds < 60; days == 7 iff the time left is a full week, and then hours, minutes and seconds are 0 |
| `Timing.CountdownReconstruction` | src/app/watch-list/page.tsx:373-379 | r = days*86400000 + hours*3600000 + minutes*60000 + seconds*1000 satisfies r <= timeDiff < r + 1000 |
| `Timing.CountdownUnique` | src/app/watch-list/page.tsx:373-379 | Any split of the time left into days, hours < 24, minutes < 60 and seconds < 60 that reconstructs it to the second is the countdown |
| `Timing.CountdownOnBoundary` | src/app/watch-list/page.tsx:365-379 | Exactly on an episode (now == start + k*week) the countdown is 7d 0h 0m 0s |
| `Timing.ScenarioStartDayIsOngoing` | src/app/watch-list/page.tsx:350-358 | At 2024-01-01T00:00Z, for a show running 2024-01-01 to 2024-06-01, the status is Ongoing |
| `Timing.ScenarioBeforeStartIsSoon` | src/app/watch-list/page.tsx:350-358 | At 2024-01-01T00:00Z, for a show starting 2024-01-08, the status is Soon |
| `Timing.ScenarioOneWeekInIsFullWeek` | src/app/watch-list/page.tsx:360-383 | One week after a 2024-01-01 start, the next episode is 2024-01-15 and the countdown is 7d 0h 0m 0s |
| `Text.LowerChar` | src/app/watch-list/page.tsx:290 | `toLowerCase` on one character: ASCII capitals move to lower case and every other character is unchanged |
| `Text.Lower` | src/app/watch-list/page.tsx:290 | `toLowerCase` on a string, with no contract of its own. What it promises is proved in `LowerHasNoCapitals`, `LowerIdempotent` and `LowerSlice` |
| `Text.LowerHasNoCapitals` | src/app/watch-list/page.tsx:290 | A lower-cased string has the same length, has no ASCII capital, and keeps every non-capital |
| `Text.LowerIdempotent` | src/app/watch-list/page.tsx:290 | Lower-casing twice is lower-casing once |
| `Text.LowerSlice` | src/app/watch-list/page.tsx:290 | Lower-casing commutes with slicing |
| `Text.Includes` | src/app/watch-list/page.tsx:290 | `includes`, as a left-to-right scan with no contract of its own. That it means "occurs at some index" is proved in `IncludesIff` |
| `Text.IncludesIff` | src/app/watch-list/page.tsx:290 | `s.includes(t)` holds iff t occurs in s at some index (both directions) |
| `Text.TitleMatches` | src/app/watch-list/page.tsx:290 | The search test on a title, with no contract of its own. What it promises is proved in `EmptyTermMatches`, `TitleMatchesIgnoresCase` and `OccurrenceMatches` |
| `Text.EmptyTermMatches` | src/app/watch-list/page.tsx:290 | The empty search term matches every title |
| `Text.TitleMatchesIgnoresCase` | src/app/watch-list/page.tsx:290 | The title test gives the same answer after lower-casing the title or the term |
| `Text.OccurrenceMatches` | src/app/watch-list/page.tsx:290 | A term that occurs verbatim in a title matches it |
| `Lists.Map` | src/app/watch-list/page.tsx:101-106 | `map` keeps the length, and element i of the result is f applied to element i |
| `Lists.Filter` | src/app/watch-list/page.tsx:193-195 | `filter`, with no contract of its own. What it keeps is proved in `FilterSpec`, `FilterKeepsAll` and `FilterIdempotent` |
| `Lists.FilterSpec` | src/app/watch-list/page.tsx:193-195 | `filter` gives a subsequence of its input that holds exactly the elements satisfying p, each as often as in the input |
| `Lists.FilterKeepsAll` | src/app/watch-list/page.tsx:193-195 | A filter whose predicate holds of every element is the identity |
| `Lists.FilterIdempotent` | src/app/watch-list/page.tsx:193-195 | Filtering twice with one predicate is filtering once |
| `Movies.Refresh` | src/app/watch-list/page.tsx:102-106 | The stored fields are unchanged; timer and status are those of now |
| `Movies.Ticked` | src/app/watch-list/page.tsx:101-106 | The tick keeps length, order, ids and every stored field; only timer and computedStatus are replaced, by their values at now |
| `Movies.Enriched` | src/app/watch-list/page.tsx:154-158 | Row i holds fetched row i unchanged, and its timer and status are already current at now |
| `Movies.Blank` | src/app/page.tsx:67-71 | Row i holds fetched row i unchanged, with an empty timer and status |
| `Movies.WithRating` | src/app/watch-list/page.tsx:171-174 | Same length and order; a row with the id gets the new rating and nothing else changes; every other row is unchanged |
| `Movies.Without` | src/app/watch-list/page.tsx:193-195 | Exactly the rows whose id differs, each as often as before, in their original order |
| `Movies.Matching` | src/app/watch-list/page.tsx:288-291 | An order-preserving subsequence holding exactly the rows whose lower-cased title includes the lower-cased term |
| `Movies.ShownTimer` | src/app/watch-list/page.tsx:309-311 | A card shows its timer exactly when the status is Ongoing and the timer is non-empty |
| `Movies.WithoutAbsent` | src/app/watch-list/page.tsx:193-195 | Removing an id that no row has is the identity |
| `Movies.WithoutTwice` | src/app/watch-list/page.tsx:193-195 | Removing the same id twice equals removing it once |
| `Movies.WithoutRemovesId` | src/app/watch-list/page.tsx:193-195 | After removal no row carries the id |
| `Movies.WithoutAfterRating` | src/app/watch-list/page.tsx:171-195 | Rating a show and then removing it gives the same list as removing it |
| `Movies.MatchingEmptyTerm` | src/app/watch-list/page.tsx:288-291 | An empty search term keeps every row |
| `Movies.TickIdempotent` | src/app/watch-list/page.tsx:101-106 | Two ticks at the same instant equal one |
| `Movies.EnrichedIsTickedBlank` | src/app/watch-list/page.tsx:154-158 | The fetch-time enrichment equals one tick applied to blank rows |
| `Movies.TickCommutesWithRating` | src/app/watch-list/page.tsx:101-106 | A tick and a rating update commute |
| `Movies.TickCommutesWithRemoval` | src/app/watch-list/page.tsx:101-106 | A tick and a removal commute |
| `Movies.TickedCards` | src/app/watch-list/page.tsx:308-311 | After a tick every card has a status; it shows a countdown iff start <= now <= end; that countdown is never the "airing now" text |
| `WatchListPage.HasUsername` | src/app/watch-list/page.tsx:116 | `profile?.username` is truthy: a profile is loaded and its user name is non-empty; `WatchList.FetchMovies` returns early exactly when it fails |
| `WatchListPage.WatchList.constructor` | src/app/watch-list/page.tsx:38-43 | The state starts as an empty list, loading, an empty term and no profile |
| `WatchListPage.WatchList.ProfileLoaded` | src/app/watch-list/page.tsx:73-84 | The profile is the user name from a successful, non-null reply, and is absent otherwise |
| `WatchListPage.WatchList.FetchMovies` | src/app/watch-list/page.tsx:113-162 | Loading ends false. With no user name, a failed id query or a failed row query, the list is unchanged. With no ids the list is empty. Otherwise it is the enriched rows, or empty when the data is null |
| `WatchListPage.WatchList.HandleRating` | src/app/watch-list/page.tsx:164-179 | On success the list is the rating update; on error it is unchanged |
| `WatchListPage.WatchList.RemoveFromWatchlist` | src/app/watch-list/page.tsx:181-196 | On success the list is the removal, and there is no alert; on error the list is unchanged and the alert text is returned |
| `WatchListPage.WatchList.Tick` | src/app/watch-list/page.tsx:100-108 | The list becomes its tick at now |
| `WatchListPage.WatchList.SetSearchTerm` | src/app/watch-list/page.tsx:251 | The search term becomes the input's value |
| `WatchListPage.WatchList.Visible` | src/app/watch-list/page.tsx:285-291 | The rendered cards are a subsequence of the list holding exactly the rows whose title matches the term, each as often as in the list |
| `HomePage.EpisodeStatus` | src/app/page.tsx:211-219 | This page's `getEpisodeStatus`, with no contract of its own. `CopiesAgree` proves it equal to `Timing.EpisodeStatus`, so the three iffs hold of it too |
| `HomePage.NextEpisodeCountdown` | src/app/page.tsx:221-244 | This page's `getNextEpisodeCountdown`, with no contract of its own. `CopiesAgree` proves it equal to `Timing.NextEpisodeCountdown`, and `HomePage.CountdownBounds` restates the bounds for it |
| `HomePage.CopiesAgree` | src/app/page.tsx:211-244 | This page's `getEpisodeStatus` and `getNextEpisodeCountdown` equal the watch-list copies for every input |
| `HomePage.CountdownBounds` | src/app/page.tsx:221-244 | This copy also never returns the "airing now" text, and its numbers keep the same bounds |
| `HomePage.StatusCaption` | src/app/page.tsx:179 | The caption is "Loading..." iff no status is computed; otherwise it is the status string |
| `HomePage.SortByStart` | src/app/page.tsx:73-76 | In place: the array ends sorted by start time, as a permutation of its input, and stable: rows with equal start times keep their relative order |
| `HomePage.SortedStableUnique` | src/app/page.tsx:73-76 | Two lists sorted by start time that agree on the order within every start time are equal, so the sorted order is determined |
| `HomePage.BlankRowsAreLoading` | src/app/page.tsx:179-182 | Every row of a permutation of freshly enriched rows shows "Loading..." and no timer |
| `HomePage.Home.constructor` | src/app/page.tsx:30-33 | The state starts as an empty list, no show being added and an empty term |
| `HomePage.Home.FetchMovies` | src/app/page.tsx:60-79 | An error or null data empties the list. Otherwise the list is a permutation of the blank-enriched rows, sorted by start time and stable |
| `HomePage.Home.BeginAdd` | src/app/page.tsx:81-82 | Before the insert, `addingId` is the show's id, so that show's bookmark button (page.tsx:169) is disabled while the insert is pending |
| `HomePage.Home.FinishAdd` | src/app/page.tsx:86-92 | After the insert, no button is disabled; the alert reads "Failed to add: " and the error message on an error, otherwise "Added to watchlist!" |
| `HomePage.Home.HandleRating` | src/app/page.tsx:95-110 | On success the list is the rating update; on error it is unchanged |
| `HomePage.Home.Tick` | src/app/page.tsx:44-58 | The list becomes its tick at now |
| `HomePage.Home.SetSearchTerm` | src/app/page.tsx:132 | The search term becomes the input's value |
| `HomePage.Home.Visible` | src/app/page.tsx:157-163 | The rendered cards are a subsequence of the list holding exactly the rows whose title matches the term, each as often as in the list |

## Left out

- Backend calls (queries, inserts, updates, deletes, the auth session and its listener, sign-out): their results are parameters of the handlers. The filters the queries apply (`.eq`, `.in`) are not checked against the rows they return.
- `setInterval` and `clearInterval`, React effect ordering and `hasMounted`: one tick is one call of `Tick`, and when ticks fire is not modelled.
- Date parsing (`new Date(str)`): a row holds its start and end as timestamps. Invalid dates (NaN) are not modelled.
- Unicode case mapping: `toLowerCase` is modelled on ASCII letters only. Other characters are left unchanged.
- The countdown's string formatting: the countdown is a record of four integers, or the "airing now" case.
- `handleShare` (the clipboard and the copied flag), `handleLogout`, the menu toggle and all JSX apart from the status caption, the timer gate and the search filter: these are browser plumbing.
- `console.error`, `console.warn` and the `alert` popup: an alert's text is returned, but it is not shown.
- `WatchListPage.WatchList.FetchMovies`: `loading` is set to true while the queries run. The model only states its final value, false, because the page never reads `loading`: it is declared at watch-list/page.tsx:40 and only ever set.
- `Movies.Ticked` and `Movies.Enriched` use one `now` for every row and for both fields of a row. The source reads the clock anew with `new Date()` in each call of `getEpisodeStatus` and `getNextEpisodeCountdown` (watch-list/page.tsx:351 and 361, page.tsx:212 and 222). So it reads the clock once per field per row (watch-list/page.tsx:102-106 and 154-158, page.tsx:49-53), and later rows can see a slightly later time.
- src/app/watch-list/[username]/page.tsx (the public watch list), src/app/add-watch/page.tsx, src/app/profile/page.tsx, src/app/signin/page.tsx, src/app/discover-watchlist/page.tsx, src/app/layout.tsx and next.config.ts are not part of this model: they are form, auth and static glue.
