# Hacker News search browser: result cache and table sorting

This project models the logic of `src/App.js` in a small React client for the Hacker News search API. The page searches for a term and caches the hits per search key. A "More" button appends further pages. The results table sorts by one of four columns, can reverse that order, and offers a "Dismiss" button per row.

The model has five modules:

- `Stories` (`stories.dfy`): the values. A hit, a cache entry `{hits, page}`, the `results` field (`null` or an object keyed by search key), how a handler ends (normally or with a `TypeError`), and the request parameters.
- `Cache` (`cache.dfy`): the pure parts of the cache.
  - `updateSearchTopStories` is the updater that merges a fetched page.
  - `StoredHits` and `StoredPage` are the read path used by `render`.
  - `needsToSearchTopStories` is the cache-miss test.
  - `WithoutId` is the filter `onDismiss` computes.
- `Sorting` (`sorting.dfy`): lodash's `sortBy`, modelled as a stable insertion sort over a total order on property values, plus the `SORTS` table and `.reverse()`.
- `TableComponent` (`table.dfy`):
  - the `Table` class with fields `sortKey` and `isSortReverse`;
  - the `onSort` transition as a function on states, with the reachable states it allows;
  - the in-place array reversal `render` performs.
- `AppComponent` (`app.dfy`): the `App` class. Its fields are the component state. Its methods are the handlers, each with the state change its `setState` calls make. A call to `fetch` appends a `Request` to the `requests` field. A response is a later, separate call: `SetSearchTopStories` on success, `FetchFailed` on failure.

The model follows the code where it differs from what the code seems to intend:

- **`onDismiss` leaves the cache alone.** It writes the filtered map into a state field named `result`, not `results`, so the view keeps showing the dismissed hit. The filter drops every hit with the given id, not only the first.
- **A response is merged under the current search key.** That is the key at the moment the response arrives, not necessarily the term that was fetched.
- **`needsToSearchTopStories` throws while `results` is still `null`.** This happens before the first response arrives, or after the first fetch failed.
  - `onSearchSubmit` then ends with a `TypeError`.
  - The search-key update it issued before the throw still takes effect.
  - No fetch starts.
- **A failed fetch only sets `error`.** `isLoading` stays true. No handler ever clears `error`.

The model also proves that the header buttons can never reach the state where sort key `NONE` is reversed. This matters because `SORTS.NONE` returns the very array it was given, which is the cached hit list. Reversing that array in place would reorder the cache.

## Model

| member | source | states |
|---|---|---|
| `Cache.StoredHits` | src/App.js:127 | the listed hits are the stored entry's hits, or empty when `results` is null or has no entry for the key |
| `Cache.StoredPage` | src/App.js:126 | the shown page is the stored entry's page, or 0 when `results` is null or has no entry for the key |
| `Cache.UpdateSearchTopStories` | src/App.js:27-46 | the current key's hits become the old hits (empty if none) followed by the fetched hits; its page becomes the fetched page; the key set grows by the current key only; every other key's entry is unchanged; `isLoading` is false |
| `Cache.MergeThenRead` | src/App.js:27-46 | after a merge, the read path shows the old list plus the new hits on the new page for the current key, and exactly the old list and page for every other key |
| `Cache.MergeTwice` | src/App.js:35-42 | merging two pages under one key equals one merge of both pages' hits in order, keeping the later page number |
| `Cache.NeedsToSearchTopStories` | src/App.js:68-70 | throws exactly when `results` is null; otherwise true iff no entry is cached for the term |
| `Cache.MergedKeyNeedsNoSearch` | src/App.js:68-70 | after a merge, the merged key needs no search, and every other term needs one iff it had no entry before |
| `Cache.WithoutId` | src/App.js:97-99 | every hit with the id is gone; every other hit keeps its multiplicity; the list is not longer; it is the input itself when no hit has the id |
| `Cache.WithoutIdKeepsOrder` | src/App.js:99 | the surviving hits keep their original order (the result is a subsequence of the input) |
| `Sorting.ValueLeTotalOrder` | src/App.js:21-24 | the order `sortBy` compares titles, authors and counts with is reflexive, total, antisymmetric and transitive |
| `Sorting.SortBy` | src/App.js:21-24 | `sortBy(list, prop)` returns a permutation of the list in non-decreasing order of the property |
| `Sorting.SortByStable` | src/App.js:21-24 | `sortBy` is stable: the hits sharing one property value come out in their input order |
| `Sorting.Reversed` | src/App.js:23-24 | `.reverse()` keeps the length and the multiset of elements, and puts element `i` at `n-1-i` |
| `Sorting.ReversedSorted` | src/App.js:23-24 | reversing a non-decreasing list gives a non-increasing one, and the other way round |
| `Sorting.Sorts` | src/App.js:19-25 | every `SORTS` entry returns a permutation; NONE is the identity; TITLE and AUTHOR are non-decreasing by their field; COMMENTS and POINTS are non-increasing by `num_comments` and `points` |
| `Sorting.SortsTies` | src/App.js:21-24 | hits with equal keys keep their input order under TITLE and AUTHOR, and come out in reverse input order under COMMENTS and POINTS |
| `TableComponent.OnSortState` | src/App.js:193-196 | selecting a key makes it active; a different key clears the reverse flag; the same key toggles it |
| `TableComponent.RunKeepsNoneNotReversed` | src/App.js:193-196 | clicks on the four header buttons keep "NONE is never reversed", and after at least one click the active key is not NONE |
| `TableComponent.ReachableSortStates` | src/App.js:211-228 | from (NONE, false), header clicks never reach (NONE, true), and they reach every (key, flag) with key other than NONE |
| `TableComponent.RenderedRows` | src/App.js:202-205 | the rendered rows are a permutation of the list; under NONE they are the list as given (or its reverse when the flag is set); TITLE and AUTHOR are non-decreasing, COMMENTS and POINTS non-increasing, and the reverse flag turns each order around |
| `TableComponent.ReverseInPlace` | src/App.js:204 | after the in-place reversal the array holds the reverse of its old contents |
| `TableComponent.Table.constructor` | src/App.js:185-188 | the table starts unsorted and not reversed |
| `TableComponent.Table.OnSort` | src/App.js:193-196 | the new (sortKey, isSortReverse) is the `onSort` transition applied to the old state |
| `TableComponent.Table.Render` | src/App.js:198-205 | the rendered list is the `SORTS` entry for the active key, reversed in place when the flag is set |
| `AppComponent.App.constructor` | src/App.js:50-58 | initial state: `results` null, empty search key, search term "redux", no error, not loading |
| `AppComponent.App.FetchSearchTopStories` | src/App.js:77-81 | loading starts and one request for (term, page, 100 hits per page) is issued; nothing else changes |
| `AppComponent.App.SetSearchTopStories` | src/App.js:72-75 | a response is merged under the current search key: its hits are appended and its page stored; other keys are unchanged; loading ends |
| `AppComponent.App.FetchFailed` | src/App.js:84 | a failed fetch only records the error; `isLoading` keeps its value |
| `AppComponent.App.ComponentDidMount` | src/App.js:87-91 | the search term becomes the search key and page 0 of it is requested |
| `AppComponent.App.OnDismiss` | src/App.js:93-107 | throws iff no entry is stored for the search key; otherwise `result` gets the map with that key's hits filtered and its page kept; `results` is unchanged |
| `AppComponent.App.OnSearchChange` | src/App.js:109-111 | the search term becomes the typed value |
| `AppComponent.App.OnSearchSubmit` | src/App.js:113-122 | the search key becomes the search term; throws iff `results` is null; page 0 is requested iff `results` has no entry for the term; otherwise loading and requests are unchanged |
| `AppComponent.App.OnMore` | src/App.js:150-153 | "More" requests page (shown page + 1) for the current search key, and loading starts |

## Left out

- Network and parsing: the URL string, `fetch`, `response.json()` and the promise chain (src/App.js:8-17, 81-84) are I/O. A request is recorded by its parameters. A response is modelled by its effect: a merge, or setting `error`.
- Responses are not matched to requests. Any number of requests may be outstanding, and any response may arrive at any time. No ordering between them is modelled beyond "the merge uses the search key current at arrival".
- React's `setState` batching: each handler's updates are applied in order. When a handler throws, the updates it issued before the throw are kept.
- `event.preventDefault()` is not modelled. When `onSearchSubmit` throws it is never reached, and the browser's own form submission follows.
- JSX rendering and the components `Search`, `Button`, `Loading`, `Sort`, `withLoading` and `ButtonWithLoading` (src/App.js:129-158, 162-175, 256-288) are presentation only. This also covers the error message shown in place of the table, and the "Loading..." text shown in place of the "More" button.
- Styling and prop checks: `classNames`, the column style constants and the `PropTypes` declarations (src/App.js:177-179, 268-299).
- Object keys that name inherited properties are treated as ordinary keys. A search term such as `constructor` or `toString` behaves in JavaScript as if it were cached.
- Sorting.SortBy: an insertion sort stands in for lodash's `sortBy`. Its contract holds: a stable, ascending, permutation-preserving sort. Two lodash behaviours are not modelled:
  - how it places `null`, `undefined` and `NaN` values;
  - string comparison by UTF-16 code unit, where the model compares by Unicode scalar value.
- Sorting.Sorts: under NONE the identity returns the very array it was given. `Table.Render` copies the sorted list into a fresh array before reversing it, so aliasing with the cached hit list is not modelled. It would only matter in the state (NONE, reversed), which `ReachableSortStates` shows is unreachable.
- Numbers: hit counts and page numbers are unbounded integers. JavaScript's floating-point numbers are not modelled.
