/**
 * The entity shapes of the book-recommendation service: catalogue books,
 * the single persisted user record with its preferences and three history
 * lists, and the ephemeral per-book score.  Timestamps are milliseconds
 * since the epoch (integers, as `Date.now()` yields); ratings and durations
 * are JavaScript numbers and are modelled as exact reals.
 */
module Types {

  datatype Option<+T> = None | Some(value: T)

  /** A catalogue entry. */
  datatype Book = Book(
    id: string,
    title: string,
    author: string,
    coverImage: string,
    description: string,
    genres: seq<string>,
    rating: real,
    releaseDate: string,
    pages: int)

  /** One view of a book; `duration` is optional and never set by the store. */
  datatype BookInteraction = BookInteraction(bookId: string, timestamp: int, duration: Option<real>)

  /** The user's rating of a book; at most one per book is intended. */
  datatype BookRating = BookRating(bookId: string, rating: real, timestamp: int)

  /** Cumulative time spent on a book, with the time of the last update. */
  datatype BookTimeSpent = BookTimeSpent(bookId: string, duration: real, timestamp: int)

  datatype Preferences = Preferences(genres: seq<string>, authors: seq<string>)

  datatype History = History(
    viewed: seq<BookInteraction>,
    rated: seq<BookRating>,
    timeSpent: seq<BookTimeSpent>)

  datatype User = User(id: string, preferences: Preferences, history: History)

  datatype RecommendationScore = RecommendationScore(bookId: string, score: real)

  /** The keys by which books and history records are looked up. */
  function BookKey(b: Book): string { b.id }
  function RatingKey(r: BookRating): string { r.bookId }
  function TimeKey(t: BookTimeSpent): string { t.bookId }
}
