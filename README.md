# Book recommendation core, modelled in Dafny

This project models the two services at the heart of a single-user book
recommendation web application:

- **the user store and catalogue accessor** (`src/services/api.ts`): one user
  record lives in one browser storage slot. Reading the user returns the stored
  record; only when the slot is empty does it create and store an empty user
  with id `"user_" + <random suffix>`. Every write operation reads the user
  this way, changes it and writes the whole record back. The write operations
  replace the preference lists, append a view, upsert a rating (replace the
  first rating of the book in place, or append one) and accumulate reading
  time (add to the first record of the book and refresh its timestamp, or
  append one). The read-only accessors return the catalogue and look a book up
  by id; they never touch the slot.
- **the recommendation engine** (`src/services/recommendationEngine.ts`):
  - A user with no preferred genre, no view and no rating (a *cold start*)
    gets a prefix of a shuffle of the catalogue.
  - Otherwise every catalogue book is scored as the sum of four terms:
    - 5 per preferred genre the book carries;
    - 1 × recency per view;
    - minutes spent × 0.1 × recency;
    - rating × 2 × recency.
  - Recency is `max(1, 10 - 0.1 × days elapsed)`.
  - A book the user rated above 4 has its score halved.
  - The scores are sorted highest first. `Array.prototype.sort` is stable
    (ECMAScript 2019 on), so equal scores keep catalogue order.
  - The first `limit` scores are kept, 10 unless the caller says otherwise.
    This follows JavaScript `slice` semantics, so a negative limit counts from
    the end.
  - Each kept score is mapped back to the first catalogue book with its id.
  - A second query filters the catalogue by genre.

The modules follow the program:

- `Types` holds the entity shapes of `src/types/index.ts`.
- `Keyed` holds `findIndex`/`find` by key and the notion of "one record per
  key".
- `Api` holds the class `UserStore`. Its field `slot` is the storage slot, and
  its methods update it in place.
- `RecommendationEngine` holds the score as specification functions, the
  imperative scoring loop, a stable in-place sort on an array, and the ranking
  method. The sort returns a ghost map from each final position to the
  position its element started at; stability is stated with that map.

The ranking method is proved against the predicate `Recommends`, which says:

- the answer has the slice's length;
- every returned book is a catalogue book;
- on a cold start, the answer is a prefix of the shuffle;
- otherwise, when catalogue ids are distinct:
  - scores are non-increasing along the answer;
  - no book left out outscores a returned one;
  - no book is returned twice;
  - books with equal scores come in catalogue order;
  - a book left out that ties with a returned one comes after it in the
    catalogue.

The clock (`Date.now()`), the random id suffix and the random shuffle are
parameters: `now`, `randomId`, and `shuffled`, which is required to be a
permutation of the catalogue.

Two behaviours of the source are worth stating outright:

- When ranking throws, the handler at
  `src/services/recommendationEngine.ts:85-89` returns an empty list; it does
  not fall back to random books.
- A saturated book can still outrank an unrated one: `SaturationScenario`
  shows a book rated 5 now scoring 52.5 against 5 for a book that only
  matches the preferred genre.

## Model

| member | source | states |
|---|---|---|
| `Keyed.FirstIndex` | src/services/api.ts:65 | the index is -1 exactly when no record has the key; otherwise that record has the key and no earlier one does |
| `Keyed.Find` | src/services/recommendationEngine.ts:52 | a found record is the first with the key; nothing is found exactly when no record has the key |
| `Keyed.KeyCount` | src/services/api.ts:64-79 | the count of records with a key is at most the length, and zero exactly when no record has the key |
| `Keyed.SameKeysSameLookups` | src/services/api.ts:67-72 | overwriting records without changing their keys changes no lookup position, no count and no keyedness |
| `Keyed.AppendLookups` | src/services/api.ts:73-79 | after a push, earlier records still win every lookup; the pushed record is found only for a key nobody else had, and its key's count grows by one |
| `Keyed.AppendUnique` | src/services/api.ts:73-79 | pushing a record whose key is absent keeps a keyed list keyed |
| `Keyed.ReplaceFirst` | src/services/api.ts:67-72 | replacing the first record with a key by another with that key: the key's lookup yields the new record; other lookups, other records, the count and keyedness are unchanged |
| `Keyed.AppendFresh` | src/services/api.ts:73-79 | pushing a record whose key is absent: its lookup yields it, the key occurs once, other lookups and earlier records are unchanged, keyedness is kept |
| `Keyed.UniqueKeysCountAtMostOne` | src/services/api.ts:64-79 | in a keyed list each key occurs at most once |
| `Keyed.FindOwnKey` | src/services/api.ts:113 | in a keyed list, looking up a record's own key finds exactly that record at its own index |
| `Api.NewUser` | src/services/api.ts:16-27 | no contract of its own: the user created on first contact, id `"user_"` + suffix and everything empty; `Api.UserStore.GetUserData` states that an empty slot yields and stores exactly this user |
| `Api.UpsertRating` | src/services/api.ts:64-79 | no contract of its own: the `findIndex` then overwrite-or-push on the ratings; its meaning is stated by `Api.UpsertRatingSpec` |
| `Api.AccumulateTime` | src/services/api.ts:89-101 | no contract of its own: the `findIndex` then accumulate-or-push on the time records; its meaning is stated by `Api.AccumulateTimeSpec` |
| `Api.Extended` | src/services/api.ts:93-94 | no contract of its own: the found record with the duration added and the timestamp set to now; `Api.AccumulateTimeSpec` states the resulting record |
| `Api.UpsertRatingSpec` | src/services/api.ts:64-79 | after a rating, the book's lookup yields the new rating and timestamp; other books' lookups and records are untouched; the list grows only when the book was unrated; the book's record count is unchanged or becomes 1; keyedness is kept |
| `Api.AccumulateTimeSpec` | src/services/api.ts:89-101 | after recording time, the book's lookup yields the previous total plus the new duration, stamped now; other books are untouched; the list grows only when the book had no record; keyedness is kept |
| `Api.UserStore.GetUserData` | src/services/api.ts:9-36 | returns the stored user unchanged; on an empty slot creates, stores and returns the user `"user_" + suffix` with empty preferences and history; keyedness is preserved |
| `Api.UserStore.UpdateUserPreferences` | src/services/api.ts:39-44 | the stored user becomes the previous one with both preference lists replaced, id and history kept |
| `Api.UserStore.RecordBookView` | src/services/api.ts:47-57 | the stored user becomes the previous one with exactly one view record (book, now, no duration) appended |
| `Api.UserStore.RecordBookRating` | src/services/api.ts:60-82 | the stored user's ratings become the upsert of the previous ones (see `Api.UpsertRatingSpec`), all else unchanged; one rating per book is preserved |
| `Api.UserStore.RecordTimeSpent` | src/services/api.ts:85-104 | the stored user's time records become the accumulation of the previous ones (see `Api.AccumulateTimeSpec`), all else unchanged; one record per book is preserved |
| `Api.UserStore.GetBookById` | src/services/api.ts:112-114 | a found book is the first catalogue book with the id; nothing is found exactly when no book has the id; with distinct ids the book with that id is found |
| `Api.RatingTwiceKeepsOneRecord` | src/services/api.ts:64-79 | rating a book twice (starting from at most one rating of it) leaves exactly one rating of it, holding the second rating and time |
| `Api.TimeTwiceAccumulates` | src/services/api.ts:89-101 | two time observations for a book with no record leave exactly one record holding their sum and the second timestamp |
| `Api.RatingUpsertScenario` | src/services/api.ts:60-82 | through the store: an empty slot, rating 3 then rating 5 of one book leave a single rating 5 record for it, and the user keeps the id created first |
| `Api.TimeSpentScenario` | src/services/api.ts:85-104 | through the store: 1000 ms then 2000 ms on one book leave one 3000 ms record stamped with the second time |
| `Api.RatingScenarioValues` | src/services/api.ts:64-79 | upserting rating 3 then rating 5 into an empty list gives the single record rating 5 |
| `Api.TimeScenarioValues` | src/services/api.ts:89-101 | accumulating 1000 then 2000 ms into an empty list gives the single record of 3000 ms |
| `RecommendationEngine.RecencyFactor` | src/services/recommendationEngine.ts:15-18 | the factor is at least 1; at most 10 for a past interaction; exactly 10 for one happening now; exactly 1 from 90 days of age on |
| `RecommendationEngine.RecencyNonIncreasing` | src/services/recommendationEngine.ts:14-18 | an older interaction never gets a larger factor |
| `RecommendationEngine.GenreMatches` | src/services/recommendationEngine.ts:40-42 | the count is at most the number of the book's genres; it equals that number exactly when all are preferred, and is 0 exactly when none is |
| `RecommendationEngine.ViewsOf` | src/services/recommendationEngine.ts:46 | the filtered views are no more than the history's and all concern the book |
| `RecommendationEngine.ViewsOfMembers` | src/services/recommendationEngine.ts:46 | a view is kept exactly when it is in the history and concerns the book |
| `RecommendationEngine.ViewsOfAppend` | src/services/recommendationEngine.ts:46 | filtering a history with one more view adds that view exactly when it concerns the book |
| `RecommendationEngine.ViewSum` | src/services/recommendationEngine.ts:47-49 | the views contribute at least their number (each at least weight 1 × factor 1) |
| `RecommendationEngine.GenreTerm` | src/services/recommendationEngine.ts:39-43 | no contract of its own: 5 per book genre found among the preferred genres; `RecommendationEngine.EmptyHistoryScoreIsGenreTerm` and `RecommendationEngine.GenreOnlyScenario` state its values |
| `RecommendationEngine.ViewTerm` | src/services/recommendationEngine.ts:45-49 | no contract of its own: the view sum over the book's views; `RecommendationEngine.HistoryTermsNonNegative` bounds it below by the number of views and `RecommendationEngine.ViewRaisesRawScore` states what one more view adds |
| `RecommendationEngine.TimeTerm` | src/services/recommendationEngine.ts:51-57 | no contract of its own: the first time record's minutes × 0.1 × recency, or 0; `RecommendationEngine.HistoryTermsNonNegative` states it is non-negative |
| `RecommendationEngine.RatingTerm` | src/services/recommendationEngine.ts:59-63 | no contract of its own: the first rating × 2 × recency, or 0; `RecommendationEngine.HistoryTermsNonNegative` states it is non-negative |
| `RecommendationEngine.RawScore` | src/services/recommendationEngine.ts:36-63 | no contract of its own: the sum of the four terms; `RecommendationEngine.HistoryTermsNonNegative` states it is at least the genre term |
| `RecommendationEngine.Saturated` | src/services/recommendationEngine.ts:65-66 | no contract of its own: the book's first rating exists and is above 4; `RecommendationEngine.SaturationHalves` states its effect |
| `RecommendationEngine.BookScore` | src/services/recommendationEngine.ts:36-68 | no contract of its own: the raw score, halved when saturated; its meaning is stated by `RecommendationEngine.SaturationHalves`, `RecommendationEngine.EmptyHistoryScoreIsGenreTerm` and `RecommendationEngine.HistoryTermsNonNegative`, and `RecommendationEngine.ScoreBook` is proved to compute it |
| `RecommendationEngine.IsColdStart` | src/services/recommendationEngine.ts:27-30 | no contract of its own: no preferred genre, no view and no rating; `Recommends` (through `RecommendationEngine.Rank`) states that such a user gets a prefix of the shuffle |
| `RecommendationEngine.SaturationHalves` | src/services/recommendationEngine.ts:65-68 | a book whose ratings are all above 4 scores half its four-term sum; a book with no rating above 4 scores its full sum |
| `RecommendationEngine.EmptyHistoryScoreIsGenreTerm` | src/services/recommendationEngine.ts:39-68 | with an empty history a book scores exactly 5 per preferred genre it carries |
| `RecommendationEngine.HistoryTermsNonNegative` | src/services/recommendationEngine.ts:45-63 | with non-negative durations and ratings the view term is at least the number of views, the time and rating terms are non-negative, the raw score is at least the genre term and the score is non-negative |
| `RecommendationEngine.ViewRaisesRawScore` | src/services/recommendationEngine.ts:45-49 | recording one more view raises a book's raw score by that view's recency factor, so by at least 1 |
| `RecommendationEngine.AddViewSignals` | src/services/recommendationEngine.ts:47-49 | the loop over a book's views adds exactly the view term to the running score |
| `RecommendationEngine.AddTimeSignal` | src/services/recommendationEngine.ts:51-57 | adds exactly the time term: nothing when the book has no time record, else its first record's minutes × 0.1 × recency |
| `RecommendationEngine.AddRatingSignal` | src/services/recommendationEngine.ts:59-63 | adds exactly the rating term: nothing when the book is unrated, else its first rating × 2 × recency |
| `RecommendationEngine.ScoreBook` | src/services/recommendationEngine.ts:36-68 | the accumulated score equals the specified book score (four terms, halved when saturated) |
| `RecommendationEngine.ScoreBooks` | src/services/recommendationEngine.ts:36-74 | one record per catalogue book, in catalogue order, carrying its id and its score |
| `RecommendationEngine.SortByScoreDescending` | src/services/recommendationEngine.ts:77-78 | the array ends sorted highest score first and is a permutation of its old contents; each final position holds the element from the position the ghost map names, and equal scores keep their original relative order (the sort is stable) |
| `RecommendationEngine.InsertIntoSorted` | src/services/recommendationEngine.ts:77-78 | inserting the next element extends the stably sorted prefix by one (sorted, ties in original order, positions tracked, the rest unmoved) and keeps the array a permutation |
| `RecommendationEngine.SortScores` | src/services/recommendationEngine.ts:77-78 | the sorted scores are non-increasing, a permutation of the scores, and equal scores keep their order in the input |
| `RecommendationEngine.SliceLength` | src/services/recommendationEngine.ts:79 | a slice never has more elements than the sequence it is taken from |
| `RecommendationEngine.ShuffledPrefix` | src/services/recommendationEngine.ts:31-32 | a prefix of a shuffle of the catalogue contains only catalogue books, each no more often than in the catalogue |
| `RecommendationEngine.SortedIdsResolve` | src/services/recommendationEngine.ts:82-84 | every sorted record's id resolves to a catalogue book, so the non-null assertion in the map never fails |
| `RecommendationEngine.ResolvedRecord` | src/services/recommendationEngine.ts:82-84 | with distinct ids, a record resolved by id is the book it was scored for and carries that book's score |
| `RecommendationEngine.DistinctResolution` | src/services/recommendationEngine.ts:82-84 | with distinct ids, two positions of the sorted scores resolve to different books |
| `RecommendationEngine.RankedPrefixIsTop` | src/services/recommendationEngine.ts:76-84 | with distinct ids, the resolved top of the sorted scores is in non-increasing score order, no catalogue book left out outscores a returned one, and no book repeats |
| `RecommendationEngine.RankedPrefixTieBreak` | src/services/recommendationEngine.ts:76-84 | with distinct ids and a stable sort, returned books with equal scores come in catalogue order, and a left-out book tying with a returned one comes later in the catalogue |
| `RecommendationEngine.ResolveBooks` | src/services/recommendationEngine.ts:82-84 | each kept record is replaced by the first catalogue book with its id, position by position |
| `RecommendationEngine.ResolvedTopRecommends` | src/services/recommendationEngine.ts:76-84 | the resolved top of the stably sorted scores satisfies `Recommends`, tie-break included |
| `RecommendationEngine.RankByScore` | src/services/recommendationEngine.ts:35-84 | the scored path returns a recommendation in the sense of `Recommends`: slice length and catalogue books only, and, for a catalogue with distinct ids, ordered, top, duplicate-free and with ties broken by catalogue order |
| `RecommendationEngine.Rank` | src/services/recommendationEngine.ts:27-84 | the answer satisfies `Recommends`: slice length, catalogue books only, a shuffled prefix on a cold start, and otherwise (distinct ids) ordered, top, duplicate-free and with ties in catalogue order |
| `RecommendationEngine.GetRecommendedBooks` | src/services/recommendationEngine.ts:21-84 | with `limit` 10 unless given, the store keeps (or newly holds) the user it read, and the answer is a recommendation for that user over the store's catalogue |
| `RecommendationEngine.FilterByGenre` | src/services/recommendationEngine.ts:95 | the result is no longer than the catalogue and holds exactly the catalogue books carrying the genre |
| `RecommendationEngine.FilterByGenreConcat` | src/services/recommendationEngine.ts:95 | filtering distributes over concatenation, so catalogue order is kept |
| `RecommendationEngine.GetBooksByGenre` | src/services/recommendationEngine.ts:93-96 | a book is returned exactly when it is in the store's catalogue and carries the genre |
| `RecommendationEngine.GenreOnlyScenario` | src/services/recommendationEngine.ts:39-43 | with a Mystery preference and no history, a Mystery book scores 5 and a Fantasy book 0 |
| `RecommendationEngine.SaturationScenario` | src/services/recommendationEngine.ts:59-68 | after rating book A 5 now, A's raw score is 105 and its score 52.5, while another Mystery book scores 5 |

## Left out

- Clock: `Date.now()` is the parameter `now` (milliseconds as an integer).
- Random user id: the suffix `Math.random().toString(36).substr(2, 9)` is the
  parameter `randomId`. The model does not constrain it to nine base-36
  characters.
- Random shuffle: `sort(() => 0.5 - Math.random())` is the parameter
  `shuffled`, required to be a permutation of the catalogue. The distribution
  of that shuffle is not modelled.
- Storage: `localStorage` under the key `bookBuddyUser` is the field `slot`.
  JSON serialisation is taken to be lossless. A stored value that fails to
  parse, which makes the source throw, is not modelled.
- Exceptions and the handler that returns an empty list: nothing in the model
  throws, so that path is not represented. `async`/`Promise` wrapping is
  dropped.
- Numbers: scores, ratings and durations are exact reals, so IEEE-754
  rounding is not modelled. `limit` is an integer; non-integer or NaN limits
  are not.
- Sort algorithm: the engine's `sort` is the runtime's own stable sort, and
  the model uses a stable insertion sort in its place. Both give the same
  order, since a stable sort by a total preorder has only one possible
  result. The comparator `b.score - a.score` is read as comparing scores;
  NaN scores cannot arise from the real-valued model.
- Catalogue: the fixture list in `src/data/mockData.ts` is not reproduced. The
  catalogue is the constructor argument of `UserStore`.
- `Api.UserStore.GetAllBooks` returns the catalogue as is and has no contract
  of its own.
- The UI components and pages, and `server.js`, are not part of this model.
- RecommendationEngine.Rank: the ordering, top-k and no-duplicate facts are
  stated only for catalogues with distinct ids. With a repeated id, `find`
  resolves every record of that id to the first such book; for that case only
  the length and catalogue membership are stated.
- RecommendationEngine.RankByScore: same restriction as `Rank`. The order,
  top-k, no-duplicate and tie-break facts are stated only for catalogues with
  distinct ids; otherwise only the length and catalogue membership are.
- RecommendationEngine.GetRecommendedBooks: same restriction as `Rank`.
- Api.UserStore.RecordBookRating: preserving one record per book assumes the
  stored user already had one; a stored user with duplicate records is
  updated only at the first.
