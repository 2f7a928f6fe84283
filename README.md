# Image gallery `Home` component, modelled in Dafny

The gallery is a React page over the Flickr photo API. Its `Home` component
keeps seven pieces of state: the photos shown, the search term, a loading
flag, the ids of images that have finished loading, the photo open in the
overlay, a more-to-come flag for infinite scrolling, and a search history of
at most five terms that is also written to local storage. Event handlers and
two effects keyed on the search term change this state.

This project models that state machine.

- `text.dfy` (module `Text`) holds the two pieces of JavaScript string
  behaviour the component depends on. One is `String.prototype.trim`, with
  ECMAScript's whitespace and line-terminator characters. The other is the
  decimal rendering of a number in a template literal. It also has the small
  string splitters used to read an image address back.
- `gallery.dfy` (module `Gallery`) holds the pure parts:
  - the photo record and the four ways a request to the service can end;
  - the choice between a search and the recent-photos feed;
  - the new-history computation `[term, ...saved.slice(0, 4)]`;
  - the page arithmetic `Math.ceil(photos.length / 50) + 1`;
  - what each handler does with a response;
  - the image address template, with a parser that reads it back;
  - the grid of tiles, where a placeholder is drawn exactly for photos whose
    id has not loaded.
- `home.dfy` (module `HomeComponent`) holds the class `Home`. Its fields are
  the component's state. Its methods are the handlers and effects, each stated
  against the functions of `Gallery`. The module ends with runs of the
  component.

How events are modelled:

- The debounce timer is one pending slot, `pendingCommit`, and `FireTimer` is
  the moment it fires.
- The slot holds the term and the history as it stood when the timer was
  scheduled. The timer's callback closes over that render's
  `savedSearchQueries`, and the effect does not re-run when only the history
  changes. So clearing the history while a timer for a non-blank term is
  pending does not last: the timer writes back the history it captured,
  behind the new term (`ClearBeforeTimerFires`). A pending timer for a blank
  term commits nothing, so a clear made then lasts (`ClearAfterBlankTermLasts`).
- Setting the term to the value it already has re-renders nothing, so neither
  effect runs. `SetSearchTerm` then changes nothing.
- Network answers are `Response` values passed to `DefaultPhotosDone`,
  `SearchPhotosDone` and `FetchMorePhotos`.
- Local storage is the ghost field `persisted`.

The model follows the code as written:

- A query change does not reset `hasMore` or the loaded-image list.
- There is no in-flight guard and no stale-response guard. An answer is
  applied whenever it arrives, whatever the current term.
- The history is never loaded from storage. It is not deduplicated, and it
  stores the term untrimmed.
- Loaded ids are a list that may repeat an id. Only membership decides what
  is drawn.
- `fetchMorePhotos` does not raise the loading flag. It asks for the next
  search page of the raw term even when the feed, not a search, is shown.
- A failed answer surfaces no error state. It only ends loading.

## Model

| member | source | states |
|---|---|---|
| `Text.TrimStartShape` | src/Home.jsx:23 | trimming the front drops exactly the leading whitespace, and what is left is a suffix that starts with a non-whitespace character |
| `Text.TrimEndShape` | src/Home.jsx:23 | trimming the end drops exactly the trailing whitespace, and what is left is a prefix that ends with a non-whitespace character |
| `Text.TrimIsInfix` | src/Home.jsx:34 | `trim()` keeps a contiguous piece of the term with only whitespace around it, and that piece neither starts nor ends with whitespace |
| `Text.BlankIff` | src/Home.jsx:34 | `term.trim() === ''` holds exactly when every character of the term is whitespace |
| `Text.NatToDecimal` | src/Home.jsx:186 | `${farm}` is a non-empty numeral of digits with no leading zero |
| `Text.DecimalRoundTrip` | src/Home.jsx:186 | reading back the rendered farm number gives the number |
| `Gallery.DispatchByContent` | src/Home.jsx:22-28 | the recent-photos feed is requested exactly when the term is all whitespace; otherwise the untrimmed term is searched for |
| `Gallery.Take` | src/Home.jsx:35 | `slice(0, k)` is a prefix of the list, of length the smaller of k and the list's length |
| `Gallery.NewHistory` | src/Home.jsx:35 | the new history starts with the term, its rest is a prefix of the old history, and its length is the old length plus one, capped at 5 |
| `Gallery.NewHistoryEvictsOldest` | src/Home.jsx:35 | a commit to a full history drops exactly the oldest entry and moves every other entry down one place |
| `Gallery.HistoryOfCommits` | src/Home.jsx:33-38 | after any run of commits the history holds min(commits, 5) entries, never more than 5, with the newest term first |
| `Gallery.CommitKeepsNewestFirst` | src/Home.jsx:35 | one commit keeps the history listing the committed terms newest first |
| `Gallery.HistoryListsLatest` | src/Home.jsx:33-38 | after any run of commits, entry i of the history is the term committed i commits before the last one |
| `Gallery.NextPage` | src/Home.jsx:121-123 | the page asked for when scrolling is at least 1 |
| `Gallery.NextPageBounds` | src/Home.jsx:121-123 | the page asked for is the first page not needed to hold the photos already shown: p-1 pages of 50 hold them and p-2 do not |
| `Gallery.NextPageAfterFullPages` | src/Home.jsx:121-123 | with k full pages shown the next request is for page k+1, so 0 photos ask for page 1 and 50 for page 2 |
| `Gallery.NextPageAdvances` | src/Home.jsx:121-123 | appending a non-empty page of at most 50 photos to whole pages moves the next request on by exactly one page |
| `Gallery.ReplaceOutcome` | src/Home.jsx:56-61 | a well-formed answer replaces the photos wholesale; any other answer keeps them |
| `Gallery.SearchOutcomeAsWritten` | src/Home.jsx:81-82 | the search handler as written stores `data.photos.photo` whatever it is, so a non-array answer leaves `photos` not a list; a null or undefined `data` or `data.photos`, or a failure, keeps the photos |
| `Gallery.SearchAsWrittenDiverges` | src/Home.jsx:81-82 | the search handler as written agrees with checked handling on every answer except one whose `photo` is not an array |
| `Gallery.MoreOutcome` | src/Home.jsx:126-135 | the old photos stay as a prefix; a well-formed page is appended in order; an empty page only lowers `hasMore`; a malformed answer or a failure changes nothing; `hasMore` is never raised |
| `Gallery.MoreOutcomesMonotone` | src/Home.jsx:126-135 | over any sequence of scroll answers, the photo list only grows (old photos stay a prefix) and `hasMore` is only ever lowered |
| `Gallery.ImageUrlRoundTrip` | src/Home.jsx:186 | the image address can be parsed back into the photo's farm, server, id and secret, when the server has no `/` and the id no `_` |
| `Gallery.ImageUrlInjective` | src/Home.jsx:186 | two such photos get the same image address only when farm, server, id and secret all agree |
| `Gallery.PhotoTiles` | src/Home.jsx:180-190 | one tile per photo, in order; the placeholder is drawn, and the image hidden, exactly when the photo's id is not in the loaded list; the image source is the photo's address and its alt text the title |
| `Gallery.Render` | src/Home.jsx:177-193 | while loading, only the skeleton with `item={20}` is drawn; otherwise the photo tiles are drawn |
| `Gallery.LoadRevealsImage` | src/Home.jsx:182-184 | after an id loads, every tile of a photo with that id shows its image, and every other tile is unchanged |
| `Gallery.LoadAgainChangesNothing` | src/Home.jsx:182-184 | reporting an already loaded id again draws the same tiles |
| `HomeComponent.Home.View` | src/Home.jsx:177-193 | the grid drawn from the component's loading flag, photos and loaded ids |
| `HomeComponent.Home.constructor` | src/Home.jsx:13-19 | the initial state: no photos, empty term, loading, nothing loaded or selected, more to come, empty history, and a timer pending for the empty term (the debounce effect at mount) |
| `HomeComponent.Home.SetSearchTerm` | src/Home.jsx:22-44 | a new term is stored, its search or feed request is sent, loading starts, and the pending timer is replaced by one for the new term that captures the current history; nothing else changes; setting the same term does nothing |
| `HomeComponent.Home.FireTimer` | src/Home.jsx:33-38 | a pending non-blank term goes in front of the captured history, capped at 5, and is stored; a blank term commits nothing; the slot is then empty; the history bound holds |
| `HomeComponent.Home.ClearSearchHistory` | src/Home.jsx:101-104 | the history and its stored copy are emptied, whatever they held; the pending timer and all other state are kept |
| `HomeComponent.Home.DefaultPhotosDone` | src/Home.jsx:48-68 | the feed's answer replaces the photos when well-formed and keeps them otherwise; loading ends; nothing else changes |
| `HomeComponent.Home.SearchPhotosDone` | src/Home.jsx:73-88 | the search's answer is handled as the feed's is, with the shape check the handler lacks; loading ends; nothing else changes |
| `HomeComponent.Home.FetchMorePhotos` | src/Home.jsx:118-140 | the next page of the raw term is requested, with the page number from the photo count; photos and `hasMore` become the scroll outcome of the answer; loading ends; nothing else changes |
| `HomeComponent.Home.HandleImageLoad` | src/Home.jsx:106-108 | the id is appended to the loaded list, whose earlier entries are kept; nothing else changes |
| `HomeComponent.Home.OpenModal` | src/Home.jsx:110-112 | the selection becomes exactly the given photo, replacing any earlier one; nothing else changes |
| `HomeComponent.Home.CloseModal` | src/Home.jsx:114-116 | the selection becomes none; nothing else changes |
| `HomeComponent.TypeTwiceThenRest` | src/Home.jsx:30-44 | typing "a" then "ab" before the timer fires leaves the history as exactly ["ab"], and a further timeout commits nothing |
| `HomeComponent.BlankTermNotCommitted` | src/Home.jsx:34 | a whitespace-only term requests the feed and never reaches the history |
| `HomeComponent.ClearBeforeTimerFires` | src/Home.jsx:33-38 | the history is empty just after a clear, but a timer scheduled before the clear writes back the captured history behind its term |
| `HomeComponent.ClearAfterBlankTermLasts` | src/Home.jsx:33-38 | after a committed term, emptying the box and then clearing leaves the history empty once the blank term's timer fires |
| `HomeComponent.SearchThenScrollToEnd` | src/Home.jsx:118-140 | a search for "cat" answered by 50 photos, then a scroll, asks for page 2 of "cat"; an empty page keeps the 50 photos and ends the results |
| `HomeComponent.ScrollFailureKeepsPhotos` | src/Home.jsx:133-139 | a malformed or failed scroll answer keeps the photos and `hasMore`, and ends loading |
| `HomeComponent.OpenTwoThenClose` | src/Home.jsx:110-116 | opening p1 then p2 selects p2 alone; closing, once or twice, selects nothing |
| `HomeComponent.LoadImageTwice` | src/Home.jsx:106-108 | a loaded image replaces its placeholder, and reporting the load twice draws the same grid as once |

## Left out

- The HTTP requests themselves are not modelled: the URLs, the API key, `format`, `per_page`, `sort`, `encodeURIComponent` and `response.json()`. A `Request` value records only the kind of request, the term and the page. A `Response` value stands for what came back.
- Each answer is applied in one step, whenever the caller passes it. The time between a request and its answer, and answers arriving out of order, are not modelled. The source has no guard against either.
- The 2000 ms delay of the timer is not modelled. `FireTimer` stands for the timeout. The cleanup that cancels the timer on unmount is not modelled, because unmounting is outside the model.
- `HomeComponent.Home.constructor`: does not return the recent-photos request that the search effect sends at mount for the empty term (src/Home.jsx:22-28). A constructor has no result to carry it. `SetSearchTerm` returns this request for every later change of term.
- Local storage is a ghost copy of the last list written. A failing `setItem` is not modelled.
- `console.error` logging is left out.
- Rendering beyond the tile grid is left out: the header, the history list, the buttons, `InfiniteScroll`, `Skeleton` and `Modal.jsx`. The image address in `Modal.jsx` uses the same template as `ImageUrl`. When `InfiniteScroll` calls for more is also left out: `FetchMorePhotos` can be called at any time, including when `hasMore` is false.
- Strings are sequences of Unicode scalar values, not UTF-16 code units. `trim` treats the same characters as whitespace either way. `farm` is a natural number, as the service sends it, not an arbitrary JavaScript value. `NatToDecimal` matches JavaScript's rendering only below 10^21, where JavaScript switches to exponent notation; farm numbers and grid indices stay far below that.
- React's batching of state updates and its development-mode double effects are not modelled.
- `Gallery.ImageUrlRoundTrip`: holds only when the server has no `/` and the id no `_`. The service's server and photo ids are numerals, so real photos meet this.
- `HomeComponent.Home.SearchPhotosDone`: follows the corrected handling from Findings, not the handler as written. `Gallery.SearchOutcomeAsWritten` models the handler as written.

## Findings

| source | as written | input that shows it | evidently intended | confidence | as-written member | corrected member |
|---|---|---|---|---|---|---|
| src/Home.jsx:81-82 | `searchPhotos` stores `data.photos.photo` without checking that it is an array | an answer `{"photos": {}}`: `photos` becomes `undefined`, and the next render throws at `photos.length` (line 172) | keep the photos and only end loading, as the feed handler (lines 56-61) and the scroll handler (lines 126-135) do | not executed; high, since the two sibling handlers both have the check | `Gallery.SearchAsWrittenDiverges` | `HomeComponent.Home.SearchPhotosDone` |
