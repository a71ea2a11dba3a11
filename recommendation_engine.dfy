/**
 * The recommendation engine: a weighted score per catalogue book from the
 * user's genre preferences and interaction history, decayed by recency,
 * damped for books the user already loves; the books are ranked by score
 * and the top `limit` returned.  A user with no signal at all gets a
 * shuffled prefix of the catalogue instead.  Numbers are exact reals; the
 * clock is the parameter `now` and the shuffle the parameter `shuffled`.
 */
module RecommendationEngine {
  import opened Types
  import opened Keyed
  import opened Api

  const GenreWeight: real := 5.0
  const ViewWeight: real := 1.0
  /** Per minute spent. */
  const TimeSpentWeight: real := 0.1
  /** Per star. */
  const RatingWeight: real := 2.0
  /** Per day of age. */
  const RecencyWeight: real := 0.1

  const MsPerMinute: int := 1000 * 60
  const MsPerDay: int := 1000 * 60 * 60 * 24

  function Max(a: real, b: real): real { if a >= b then a else b }

  /**
   * Multiplier for an interaction at `timestamp`: 10 for one happening now,
   * 0.1 less per elapsed day, never below 1.
   */
  function RecencyFactor(now: int, timestamp: int): (f: real)
    ensures f >= 1.0
    ensures timestamp <= now ==> f <= 10.0
    ensures timestamp == now ==> f == 10.0
    ensures timestamp <= now ==> (f == 1.0 <==> now - timestamp >= 90 * MsPerDay)
  {
    var daysAgo := (now - timestamp) as real / MsPerDay as real;
    Max(1.0, 10.0 - daysAgo * RecencyWeight)
  }

  /** The older of two interactions (measured at possibly different times) never gets the larger factor. */
  lemma RecencyNonIncreasing(now1: int, t1: int, now2: int, t2: int)
    requires now1 - t1 <= now2 - t2
    ensures RecencyFactor(now1, t1) >= RecencyFactor(now2, t2)
  {
  }

  /** Number of entries of `genres` that occur in `preferred` (a filter followed by its length). */
  function GenreMatches(genres: seq<string>, preferred: seq<string>): (n: nat)
    ensures n <= |genres|
    ensures n == |genres| <==> forall j :: 0 <= j < |genres| ==> genres[j] in preferred
    ensures n == 0 <==> forall j :: 0 <= j < |genres| ==> genres[j] !in preferred
  {
    if |genres| == 0 then 0
    else
      var rest := GenreMatches(genres[1..], preferred);
      assert forall j :: 1 <= j < |genres| ==> genres[j] == genres[1..][j - 1];
      (if genres[0] in preferred then 1 else 0) + rest
  }

  /** The view records of one book, in history order. */
  function ViewsOf(viewed: seq<BookInteraction>, bookId: string): (r: seq<BookInteraction>)
    ensures |r| <= |viewed|
    ensures forall j :: 0 <= j < |r| ==> r[j].bookId == bookId
  {
    if |viewed| == 0 then []
    else (if viewed[0].bookId == bookId then [viewed[0]] else []) + ViewsOf(viewed[1..], bookId)
  }

  /** The filtered views are exactly the history's views of that book. */
  lemma {:induction false} ViewsOfMembers(viewed: seq<BookInteraction>, bookId: string, v: BookInteraction)
    ensures v in ViewsOf(viewed, bookId) <==> v in viewed && v.bookId == bookId
    decreases |viewed|
  {
    if |viewed| > 0 {
      ViewsOfMembers(viewed[1..], bookId, v);
      assert viewed == [viewed[0]] + viewed[1..];
    }
  }

  /** Filtering views commutes with appending a record. */
  lemma {:induction false} ViewsOfAppend(viewed: seq<BookInteraction>, v: BookInteraction, bookId: string)
    ensures ViewsOf(viewed + [v], bookId) == ViewsOf(viewed, bookId) + (if v.bookId == bookId then [v] else [])
    decreases |viewed|
  {
    if |viewed| == 0 {
      assert viewed + [v] == [v];
    } else {
      assert (viewed + [v])[1..] == viewed[1..] + [v];
      ViewsOfAppend(viewed[1..], v, bookId);
    }
  }

  /** Each view contributes its weight times its recency factor. */
  function ViewSum(views: seq<BookInteraction>, now: int): (total: real)
    ensures total >= |views| as real * ViewWeight
  {
    if |views| == 0 then 0.0
    else ViewSum(views[..|views| - 1], now) + ViewWeight * RecencyFactor(now, views[|views| - 1].timestamp)
  }

  /** The four terms of a book's score for `user`. */
  function GenreTerm(user: User, book: Book): real
  {
    GenreMatches(book.genres, user.preferences.genres) as real * GenreWeight
  }

  function ViewTerm(user: User, book: Book, now: int): real
  {
    ViewSum(ViewsOf(user.history.viewed, book.id), now)
  }

  function TimeTerm(user: User, book: Book, now: int): real
  {
    match Find(user.history.timeSpent, TimeKey, book.id)
    case Some(t) => t.duration / MsPerMinute as real * TimeSpentWeight * RecencyFactor(now, t.timestamp)
    case None => 0.0
  }

  function RatingTerm(user: User, book: Book, now: int): real
  {
    match Find(user.history.rated, RatingKey, book.id)
    case Some(r) => r.rating * RatingWeight * RecencyFactor(now, r.timestamp)
    case None => 0.0
  }

  /** The sum of the four terms, before saturation. */
  function RawScore(user: User, book: Book, now: int): real
  {
    GenreTerm(user, book) + ViewTerm(user, book, now) + TimeTerm(user, book, now) + RatingTerm(user, book, now)
  }

  /** The user already rated the book above 4. */
  predicate Saturated(user: User, book: Book)
  {
    var r := Find(user.history.rated, RatingKey, book.id);
    r.Some? && r.value.rating > 4.0
  }

  /** A book's final score: the raw score, halved for a book the user already loves. */
  function BookScore(user: User, book: Book, now: int): real
  {
    if Saturated(user, book) then RawScore(user, book, now) * 0.5 else RawScore(user, book, now)
  }

  /** Saturation is exactly a halving of the four-term sum, and only a rating above 4 causes it. */
  lemma SaturationHalves(user: User, book: Book, now: int)
    ensures (exists r :: r in user.history.rated && r.bookId == book.id)
            && (forall r :: r in user.history.rated && r.bookId == book.id ==> r.rating > 4.0)
            ==> BookScore(user, book, now) * 2.0 == RawScore(user, book, now)
    ensures (forall r :: r in user.history.rated && r.bookId == book.id ==> r.rating <= 4.0)
            ==> BookScore(user, book, now) == RawScore(user, book, now)
  {
  }

  /** With no history at all, a book's score is exactly its genre term: 5 per preferred genre it carries. */
  lemma EmptyHistoryScoreIsGenreTerm(user: User, book: Book, now: int)
    requires user.history == History([], [], [])
    ensures BookScore(user, book, now) == 5.0 * GenreMatches(book.genres, user.preferences.genres) as real
  {
  }

  /** Every history term is non-negative when durations and ratings are, so a book never scores below its genre term. */
  lemma HistoryTermsNonNegative(user: User, book: Book, now: int)
    requires forall t :: t in user.history.timeSpent ==> t.duration >= 0.0
    requires forall r :: r in user.history.rated ==> r.rating >= 0.0
    ensures ViewTerm(user, book, now) >= |ViewsOf(user.history.viewed, book.id)| as real
    ensures TimeTerm(user, book, now) >= 0.0
    ensures RatingTerm(user, book, now) >= 0.0
    ensures RawScore(user, book, now) >= GenreTerm(user, book)
    ensures BookScore(user, book, now) >= 0.0
  {
    TimeTermNonNegative(user, book, now);
    RatingTermNonNegative(user, book, now);
  }

  lemma TimeTermNonNegative(user: User, book: Book, now: int)
    requires forall t :: t in user.history.timeSpent ==> t.duration >= 0.0
    ensures TimeTerm(user, book, now) >= 0.0
  {
    var t := Find(user.history.timeSpent, TimeKey, book.id);
    if t.Some? {
      assert t.value in user.history.timeSpent;
      var m := t.value.duration / MsPerMinute as real * TimeSpentWeight;
      assert m >= 0.0;
      ProductNonNegative(m, RecencyFactor(now, t.value.timestamp));
    }
  }

  lemma RatingTermNonNegative(user: User, book: Book, now: int)
    requires forall r :: r in user.history.rated ==> r.rating >= 0.0
    ensures RatingTerm(user, book, now) >= 0.0
  {
    var r := Find(user.history.rated, RatingKey, book.id);
    if r.Some? {
      assert r.value in user.history.rated;
      var w := r.value.rating * RatingWeight;
      assert w >= 0.0;
      ProductNonNegative(w, RecencyFactor(now, r.value.timestamp));
    }
  }

  lemma ProductNonNegative(a: real, b: real)
    requires a >= 0.0 && b >= 0.0
    ensures a * b >= 0.0
  {
  }

  /** Recording one more view of a book raises its raw score by that view's recency factor, at least 1. */
  lemma ViewRaisesRawScore(user: User, book: Book, now: int, timestamp: int)
    ensures var u := user.(history := user.history.(viewed := user.history.viewed + [BookInteraction(book.id, timestamp, None)]));
            RawScore(u, book, now) == RawScore(user, book, now) + ViewWeight * RecencyFactor(now, timestamp)
            && RawScore(u, book, now) >= RawScore(user, book, now) + 1.0
  {
    var v := BookInteraction(book.id, timestamp, None);
    var u := user.(history := user.history.(viewed := user.history.viewed + [v]));
    assert ViewTerm(u, book, now) == ViewTerm(user, book, now) + ViewWeight * RecencyFactor(now, timestamp) by {
      var views := ViewsOf(user.history.viewed, book.id);
      ViewsOfAppend(user.history.viewed, v, book.id);
      assert (views + [v])[..|views|] == views;
    }
    OtherTermsUnchanged(user, u, book, now);
  }

  /** The genre, time and rating terms read neither the views nor the user's id. */
  lemma OtherTermsUnchanged(user: User, u: User, book: Book, now: int)
    requires u.preferences == user.preferences
    requires u.history.timeSpent == user.history.timeSpent && u.history.rated == user.history.rated
    ensures GenreTerm(u, book) == GenreTerm(user, book)
    ensures TimeTerm(u, book, now) == TimeTerm(user, book, now)
    ensures RatingTerm(u, book, now) == RatingTerm(user, book, now)
  {
  }

  /** The `forEach` over a book's views: adds each view's weight times its recency to `score`. */
  method AddViewSignals(score: real, views: seq<BookInteraction>, now: int) returns (total: real)
    ensures total == score + ViewSum(views, now)
  {
    total := score;
    var k := 0;
    while k < |views|
      invariant 0 <= k <= |views|
      invariant total == score + ViewSum(views[..k], now)
    {
      assert views[..k + 1][..k] == views[..k];
      total := total + ViewWeight * RecencyFactor(now, views[k].timestamp);
      k := k + 1;
    }
    assert views[..|views|] == views;
  }

  /** Adds the time-spent term: minutes spent, weighted and scaled by recency. */
  method AddTimeSignal(score: real, user: User, book: Book, now: int) returns (total: real)
    ensures total == score + TimeTerm(user, book, now)
  {
    total := score;
    var timeSpent := Find(user.history.timeSpent, TimeKey, book.id);
    if timeSpent.Some? {
      var minutesSpent := timeSpent.value.duration / MsPerMinute as real;
      total := total + minutesSpent * TimeSpentWeight * RecencyFactor(now, timeSpent.value.timestamp);
    }
  }

  /** Adds the rating term: the rating, weighted and scaled by recency. */
  method AddRatingSignal(score: real, user: User, book: Book, now: int) returns (total: real)
    ensures total == score + RatingTerm(user, book, now)
  {
    total := score;
    var rating := Find(user.history.rated, RatingKey, book.id);
    if rating.Some? {
      total := total + rating.value.rating * RatingWeight * RecencyFactor(now, rating.value.timestamp);
    }
  }

  /** Computes one book's score the way the engine does, accumulating term by term. */
  method ScoreBook(user: User, book: Book, now: int) returns (score: real)
    ensures score == BookScore(user, book, now)
  {
    score := 0.0;
    var genreMatches := GenreMatches(book.genres, user.preferences.genres);
    score := score + genreMatches as real * GenreWeight;

    var views := ViewsOf(user.history.viewed, book.id);
    score := AddViewSignals(score, views, now);
    score := AddTimeSignal(score, user, book, now);
    score := AddRatingSignal(score, user, book, now);
    assert score == RawScore(user, book, now);

    var rating := Find(user.history.rated, RatingKey, book.id);
    if rating.Some? && rating.value.rating > 4.0 {
      score := score * 0.5;
    }
  }

  /** One score per catalogue book, in catalogue order. */
  method ScoreBooks(user: User, catalogue: seq<Book>, now: int) returns (scores: seq<RecommendationScore>)
    ensures ScoresOf(user, catalogue, now, scores)
  {
    scores := [];
    var k := 0;
    while k < |catalogue|
      invariant 0 <= k <= |catalogue| && |scores| == k
      invariant forall p :: 0 <= p < k ==>
                  scores[p] == RecommendationScore(catalogue[p].id, BookScore(user, catalogue[p], now))
    {
      var score := ScoreBook(user, catalogue[k], now);
      scores := scores + [RecommendationScore(catalogue[k].id, score)];
      k := k + 1;
    }
  }

  /** Scores never increase along the sequence. */
  predicate NonIncreasing(s: seq<RecommendationScore>)
  {
    forall p, q :: 0 <= p < q < |s| ==> s[p].score >= s[q].score
  }

  /** Position k of `s` holds element `origin[k]` of `orig`. */
  ghost predicate Tracks(s: seq<RecommendationScore>, orig: seq<RecommendationScore>, origin: seq<int>)
  {
    |origin| == |s| && forall k :: 0 <= k < |s| ==> 0 <= origin[k] < |orig| && s[k] == orig[origin[k]]
  }

  /** Equal scores keep the relative order they had before sorting (the sort is stable). */
  ghost predicate TiesInOrder(s: seq<RecommendationScore>, origin: seq<int>)
  {
    |origin| == |s| && forall k, l :: 0 <= k < l < |s| && s[k].score == s[l].score ==> origin[k] < origin[l]
  }

  /**
   * The first `i` positions of `s` are sorted, highest first, with ties in
   * their original order; `o` maps every position to the position of `orig`
   * its element came from, and nothing from position `i` on has moved.
   */
  ghost predicate SortedPrefix(s: seq<RecommendationScore>, o: seq<int>, orig: seq<RecommendationScore>, i: nat)
  {
    && i <= |s|
    && NonIncreasing(s[..i])
    && Tracks(s, orig, o)
    && TiesInOrder(s[..i], o[..i])
    && (forall k :: 0 <= k < i ==> o[k] < i)
    && (forall k :: i <= k < |s| ==> o[k] == k)
  }

  /**
   * Sorts the scores in place, highest first, keeping equal scores in their
   * original order (an insertion sort); `origin` maps each final position to
   * the position its element started at.
   */
  method SortByScoreDescending(a: array<RecommendationScore>) returns (ghost origin: seq<int>)
    modifies a
    ensures NonIncreasing(a[..])
    ensures multiset(a[..]) == old(multiset(a[..]))
    ensures Tracks(a[..], old(a[..]), origin)
    ensures TiesInOrder(a[..], origin)
  {
    ghost var orig := a[..];
    origin := seq(a.Length, k => k);
    SortedPrefixStart(orig, origin);
    var i := 0;
    while i < a.Length
      invariant 0 <= i <= a.Length
      invariant SortedPrefix(a[..], origin, orig, i)
      invariant multiset(a[..]) == multiset(orig)
    {
      origin := InsertIntoSorted(a, i, orig, origin);
      i := i + 1;
    }
    SortedPrefixComplete(a[..], origin, orig);
  }

  /** Nothing is sorted yet, and every element is where it started. */
  lemma SortedPrefixStart(s: seq<RecommendationScore>, o: seq<int>)
    requires o == seq(|s|, k => k)
    ensures SortedPrefix(s, o, s, 0)
  {
  }

  /** A prefix covering the whole sequence sorts all of it. */
  lemma SortedPrefixComplete(s: seq<RecommendationScore>, o: seq<int>, orig: seq<RecommendationScore>)
    requires SortedPrefix(s, o, orig, |s|)
    ensures NonIncreasing(s) && Tracks(s, orig, o) && TiesInOrder(s, o)
  {
    assert s[..|s|] == s;
    assert o[..|s|] == o;
  }

  /** `s` with the elements at `k - 1` and `k` exchanged. */
  function Swapped<T>(s: seq<T>, k: nat): (r: seq<T>)
    requires 0 < k < |s|
    ensures |r| == |s| && r[k - 1] == s[k] && r[k] == s[k - 1]
    ensures forall p :: 0 <= p < |s| && p != k - 1 && p != k ==> r[p] == s[p]
  {
    s[k - 1 := s[k]][k := s[k - 1]]
  }

  /** Exchanges `a[k - 1]` and `a[k]`, leaving every other element in place. */
  method SwapAdjacent(a: array<RecommendationScore>, k: nat)
    requires 0 < k < a.Length
    modifies a
    ensures a[..] == Swapped(old(a[..]), k)
    ensures multiset(a[..]) == old(multiset(a[..]))
  {
    a[k - 1], a[k] := a[k], a[k - 1];
  }

  /**
   * The state of an insertion of element `i` (which started at position
   * `i`) that has moved down to position `j`: the first `i + 1` positions
   * other than `j` are sorted with ties in their original order, everything
   * after `j` up to `i` scores strictly less than the inserted element,
   * every other element came from before `i`, and nothing past `i` moved.
   */
  ghost predicate Inserting(s: seq<RecommendationScore>, o: seq<int>, orig: seq<RecommendationScore>, i: nat, j: nat)
  {
    && j <= i < |s|
    && Tracks(s, orig, o)
    && (forall p, q :: 0 <= p < q <= i && p != j && q != j ==> s[p].score >= s[q].score)
    && (forall q :: j < q <= i ==> s[j].score > s[q].score)
    && o[j] == i
    && (forall k :: 0 <= k <= i && k != j ==> o[k] < i)
    && (forall k :: i < k < |s| ==> o[k] == k)
    && (forall p, q :: 0 <= p < q <= i && p != j && q != j && s[p].score == s[q].score ==> o[p] < o[q])
  }

  /** Before the first exchange, the insertion state holds with the element still at `i`. */
  lemma InsertingStart(s: seq<RecommendationScore>, o: seq<int>, orig: seq<RecommendationScore>, i: nat)
    requires i < |s|
    requires SortedPrefix(s, o, orig, i)
    ensures Inserting(s, o, orig, i, i)
  {
    assert forall p :: 0 <= p < i ==> s[..i][p] == s[p] && o[..i][p] == o[p];
  }

  /** Exchanging the inserted element with a strictly smaller left neighbour keeps the insertion state. */
  lemma InsertingStep(s: seq<RecommendationScore>, o: seq<int>, orig: seq<RecommendationScore>, i: nat, j: nat)
    requires Inserting(s, o, orig, i, j)
    requires 0 < j && s[j - 1].score < s[j].score
    ensures Inserting(Swapped(s, j), Swapped(o, j), orig, i, j - 1)
  {
    var s', o' := Swapped(s, j), Swapped(o, j);
    assert Tracks(s', orig, o');
  }

  /** Once the left neighbour scores at least as much, one more position is stably sorted. */
  lemma InsertingDone(s: seq<RecommendationScore>, o: seq<int>, orig: seq<RecommendationScore>, i: nat, j: nat)
    requires Inserting(s, o, orig, i, j)
    requires j == 0 || s[j - 1].score >= s[j].score
    ensures SortedPrefix(s, o, orig, i + 1)
  {
    assert forall p :: 0 <= p <= i ==> s[..i + 1][p] == s[p] && o[..i + 1][p] == o[p];
  }

  /**
   * Moves `a[i]` left past every strictly smaller score, so that `a[..i + 1]`
   * becomes sorted; it never passes an equal score, so ties keep their order.
   */
  method InsertIntoSorted(a: array<RecommendationScore>, i: nat, ghost orig: seq<RecommendationScore>,
                          ghost origin: seq<int>) returns (ghost origin': seq<int>)
    requires i < a.Length
    requires SortedPrefix(a[..], origin, orig, i)
    modifies a
    ensures SortedPrefix(a[..], origin', orig, i + 1)
    ensures multiset(a[..]) == old(multiset(a[..]))
  {
    InsertingStart(a[..], origin, orig, i);
    origin' := origin;
    var j: nat := i;
    while j > 0 && a[j - 1].score < a[j].score
      invariant Inserting(a[..], origin', orig, i, j)
      invariant multiset(a[..]) == old(multiset(a[..]))
    {
      InsertingStep(a[..], origin', orig, i, j);
      SwapAdjacent(a, j);
      origin' := Swapped(origin', j);
      j := j - 1;
    }
    InsertingDone(a[..], origin', orig, i, j);
  }

  /** Length of `s.slice(0, limit)` for a sequence of length `n` (a negative limit counts from the end). */
  function SliceLength(n: nat, limit: int): (k: nat)
    ensures k <= n
  {
    if limit >= 0 then (if limit <= n then limit else n)
    else if n + limit >= 0 then n + limit else 0
  }

  /** No signal at all: no preferred genre, no view, no rating. */
  predicate IsColdStart(user: User)
  {
    |user.preferences.genres| == 0 && |user.history.viewed| == 0 && |user.history.rated| == 0
  }

  /** Every catalogue book has its own id. */
  predicate UniqueIds(catalogue: seq<Book>)
  {
    UniqueKeys(catalogue, BookKey)
  }

  /** The position of `b` in the catalogue, found by its id (-1 when absent). */
  function CatalogueIndex(catalogue: seq<Book>, b: Book): (i: int)
    ensures -1 <= i < |catalogue|
  {
    FirstIndex(catalogue, BookKey, b.id)
  }

  /**
   * What a recommendation of at most `limit` books from `catalogue` for
   * `user` is: a prefix of the shuffled catalogue on a cold start; otherwise
   * books of the catalogue, as many as the slice allows, in non-increasing
   * score order, no book left out scoring above a returned one, and no book
   * twice.  Because the sort is stable, equal scores are broken by catalogue
   * order: tied books come in catalogue order, and a book left out ties with
   * a returned one only if it comes later in the catalogue.  The ordering
   * facts need distinct ids, because results are resolved back to books by id.
   */
  ghost predicate Recommends(user: User, catalogue: seq<Book>, limit: int, now: int,
                             shuffled: seq<Book>, books: seq<Book>)
  {
    && |books| == SliceLength(|catalogue|, limit)
    && (forall b :: b in books ==> b in catalogue)
    && (IsColdStart(user) ==> |books| <= |shuffled| && books == shuffled[..|books|] && multiset(books) <= multiset(catalogue))
    && (!IsColdStart(user) && UniqueIds(catalogue) ==>
          && (forall i, j :: 0 <= i < j < |books| ==> BookScore(user, books[i], now) >= BookScore(user, books[j], now))
          && (forall b, i :: b in catalogue && b !in books && 0 <= i < |books| ==>
                BookScore(user, books[i], now) >= BookScore(user, b, now))
          && (forall i, j :: 0 <= i < j < |books| ==> books[i] != books[j])
          && (forall i, j :: 0 <= i < j < |books| && BookScore(user, books[i], now) == BookScore(user, books[j], now) ==>
                CatalogueIndex(catalogue, books[i]) < CatalogueIndex(catalogue, books[j]))
          && (forall b, i :: (b in catalogue && b !in books && 0 <= i < |books| &&
                              BookScore(user, books[i], now) == BookScore(user, b, now)) ==>
                CatalogueIndex(catalogue, books[i]) < CatalogueIndex(catalogue, b)))
  }

  /** A prefix of a sequence is a sub-multiset of it. */
  lemma PrefixSubMultiset<T>(s: seq<T>, k: nat)
    requires k <= |s|
    ensures multiset(s[..k]) <= multiset(s)
  {
    assert s == s[..k] + s[k..];
  }

  /** Each catalogue book's record in `scores` carries its id and its score. */
  ghost predicate ScoresOf(user: User, catalogue: seq<Book>, now: int, scores: seq<RecommendationScore>)
  {
    |scores| == |catalogue|
    && forall q :: 0 <= q < |catalogue| ==>
         scores[q] == RecommendationScore(catalogue[q].id, BookScore(user, catalogue[q], now))
  }

  /** A record taken from the scores and resolved by id is the catalogue book it was computed for. */
  lemma ResolvedRecord(user: User, catalogue: seq<Book>, now: int, scores: seq<RecommendationScore>,
                       r: RecommendationScore, b: Book)
    requires UniqueIds(catalogue)
    requires ScoresOf(user, catalogue, now, scores)
    requires r in scores
    requires Find(catalogue, BookKey, r.bookId) == Some(b)
    ensures exists q :: 0 <= q < |catalogue| && r == scores[q] && b == catalogue[q]
    ensures r.score == BookScore(user, b, now)
  {
    var q :| 0 <= q < |scores| && scores[q] == r;
    FindOwnKey(catalogue, BookKey, q);
  }

  /**
   * The scored-then-sorted prefix, resolved back to books, is the top of
   * the ranking: its books' scores are those of their records, so they are
   * non-increasing, no other catalogue book outscores them, and none repeats.
   */
  lemma RankedPrefixIsTop(user: User, catalogue: seq<Book>, now: int, scores: seq<RecommendationScore>,
                          sorted: seq<RecommendationScore>, books: seq<Book>)
    requires UniqueIds(catalogue)
    requires ScoresOf(user, catalogue, now, scores)
    requires multiset(sorted) == multiset(scores)
    requires NonIncreasing(sorted)
    requires |books| <= |sorted|
    requires forall j :: 0 <= j < |books| ==> Find(catalogue, BookKey, sorted[j].bookId) == Some(books[j])
    ensures forall i, j :: 0 <= i < j < |books| ==> BookScore(user, books[i], now) >= BookScore(user, books[j], now)
    ensures forall b, i :: b in catalogue && b !in books && 0 <= i < |books| ==>
              BookScore(user, books[i], now) >= BookScore(user, b, now)
    ensures forall i, j :: 0 <= i < j < |books| ==> books[i] != books[j]
  {
    forall j | 0 <= j < |books|
      ensures sorted[j].score == BookScore(user, books[j], now)
    {
      assert sorted[j] in multiset(scores);
      ResolvedRecord(user, catalogue, now, scores, sorted[j], books[j]);
    }
    forall b, i | b in catalogue && b !in books && 0 <= i < |books|
      ensures BookScore(user, books[i], now) >= BookScore(user, b, now)
    {
      var q :| 0 <= q < |catalogue| && catalogue[q] == b;
      assert scores[q] in multiset(sorted);
      var p :| 0 <= p < |sorted| && sorted[p] == scores[q];
      if p < |books| {
        FindOwnKey(catalogue, BookKey, q);
        assert false;
      }
      assert sorted[i].score >= sorted[p].score;
    }
    forall i, j | 0 <= i < j < |books|
      ensures books[i] != books[j]
    {
      DistinctResolution(user, catalogue, now, scores, sorted, i, j);
    }
  }

  /**
   * The tie-break of a stable sort, seen on the resolved prefix: each
   * returned book sits in the catalogue where its record started, so equal
   * scores keep catalogue order, and a left-out book tying with a returned
   * one comes after it in the catalogue.
   */
  lemma RankedPrefixTieBreak(user: User, catalogue: seq<Book>, now: int, scores: seq<RecommendationScore>,
                             sorted: seq<RecommendationScore>, origin: seq<int>, books: seq<Book>)
    requires UniqueIds(catalogue)
    requires ScoresOf(user, catalogue, now, scores)
    requires multiset(sorted) == multiset(scores)
    requires Tracks(sorted, scores, origin)
    requires TiesInOrder(sorted, origin)
    requires NonIncreasing(sorted)
    requires |books| <= |sorted|
    requires forall j :: 0 <= j < |books| ==> Find(catalogue, BookKey, sorted[j].bookId) == Some(books[j])
    ensures forall i, j :: 0 <= i < j < |books| && BookScore(user, books[i], now) == BookScore(user, books[j], now) ==>
              CatalogueIndex(catalogue, books[i]) < CatalogueIndex(catalogue, books[j])
    ensures forall b, i :: (b in catalogue && b !in books && 0 <= i < |books| &&
                            BookScore(user, books[i], now) == BookScore(user, b, now)) ==>
              CatalogueIndex(catalogue, books[i]) < CatalogueIndex(catalogue, b)
  {
    forall j | 0 <= j < |books|
      ensures books[j] == catalogue[origin[j]]
      ensures CatalogueIndex(catalogue, books[j]) == origin[j]
      ensures sorted[j].score == BookScore(user, books[j], now)
    {
      assert sorted[j] == scores[origin[j]];
      FindOwnKey(catalogue, BookKey, origin[j]);
    }
    forall b, i | b in catalogue && b !in books && 0 <= i < |books| &&
                  BookScore(user, books[i], now) == BookScore(user, b, now)
      ensures CatalogueIndex(catalogue, books[i]) < CatalogueIndex(catalogue, b)
    {
      var q :| 0 <= q < |catalogue| && catalogue[q] == b;
      FindOwnKey(catalogue, BookKey, q);
      assert scores[q] in multiset(sorted);
      var p :| 0 <= p < |sorted| && sorted[p] == scores[q];
      assert catalogue[origin[p]].id == catalogue[q].id;
      assert origin[p] == q;
      if p < |books| {
        assert false;
      }
      assert sorted[i].score >= sorted[p].score;
    }
  }

  /** Two positions of the sorted scores never resolve to the same book, since each record occurs once. */
  lemma DistinctResolution(user: User, catalogue: seq<Book>, now: int, scores: seq<RecommendationScore>,
                           sorted: seq<RecommendationScore>, i: nat, j: nat)
    requires UniqueIds(catalogue)
    requires ScoresOf(user, catalogue, now, scores)
    requires multiset(sorted) == multiset(scores)
    requires i < j < |sorted|
    ensures Find(catalogue, BookKey, sorted[i].bookId) != Find(catalogue, BookKey, sorted[j].bookId)
  {
    assert sorted[i] in multiset(scores);
    assert sorted[j] in multiset(scores);
    var q :| 0 <= q < |scores| && sorted[i] == scores[q];
    var q' :| 0 <= q' < |scores| && sorted[j] == scores[q'];
    if q == q' {
      ScoreIdsDistinct(user, catalogue, now, scores);
      DistinctCount(scores, q);
      TwoIndicesCount(sorted, i, j);
      assert false;
    } else {
      FindOwnKey(catalogue, BookKey, q);
      FindOwnKey(catalogue, BookKey, q');
      assert catalogue[q].id != catalogue[q'].id;
    }
  }

  /** The records of distinct-id books carry distinct ids. */
  lemma ScoreIdsDistinct(user: User, catalogue: seq<Book>, now: int, scores: seq<RecommendationScore>)
    requires UniqueIds(catalogue)
    requires ScoresOf(user, catalogue, now, scores)
    ensures forall i, j :: 0 <= i < j < |scores| ==> scores[i].bookId != scores[j].bookId
  {
    forall i, j | 0 <= i < j < |scores| ensures scores[i].bookId != scores[j].bookId {
      assert BookKey(catalogue[i]) != BookKey(catalogue[j]);
    }
  }

  /** Records with distinct ids are distinct, so each occurs once in the multiset. */
  lemma DistinctCount(scores: seq<RecommendationScore>, q: nat)
    requires q < |scores|
    requires forall i, j :: 0 <= i < j < |scores| ==> scores[i].bookId != scores[j].bookId
    ensures multiset(scores)[scores[q]] == 1
  {
    assert scores == scores[..q] + [scores[q]] + scores[q + 1..];
    assert scores[q] !in scores[..q];
    assert scores[q] !in scores[q + 1..];
  }

  /** An element that sits at two positions occurs at least twice. */
  lemma TwoIndicesCount<T>(s: seq<T>, i: nat, j: nat)
    requires i < j < |s| && s[i] == s[j]
    ensures multiset(s)[s[i]] >= 2
  {
    assert s == s[..j] + s[j..];
    assert s[i] in s[..j];
    assert s[j] in s[j..];
  }

  /** A cold-start answer, a prefix of a shuffle of the catalogue, has the slice's length and only catalogue books. */
  lemma ShuffledPrefix(catalogue: seq<Book>, shuffled: seq<Book>, limit: int)
    requires multiset(shuffled) == multiset(catalogue)
    ensures |shuffled| == |catalogue|
    ensures var books := shuffled[..SliceLength(|shuffled|, limit)];
            multiset(books) <= multiset(catalogue) && forall b :: b in books ==> b in catalogue
  {
    assert |shuffled| == |multiset(shuffled)| == |multiset(catalogue)| == |catalogue|;
    var books := shuffled[..SliceLength(|shuffled|, limit)];
    PrefixSubMultiset(shuffled, |books|);
    forall b | b in books ensures b in catalogue {
      assert b in multiset(books);
    }
  }

  /** Every record of a prefix of a permutation of the scores carries the id of some catalogue book. */
  lemma SortedIdsResolve(user: User, catalogue: seq<Book>, now: int, scores: seq<RecommendationScore>,
                         sorted: seq<RecommendationScore>, k: nat)
    requires ScoresOf(user, catalogue, now, scores)
    requires multiset(sorted) == multiset(scores)
    requires k <= |sorted|
    ensures forall r :: r in sorted[..k] ==> Find(catalogue, BookKey, r.bookId).Some?
  {
    forall r | r in sorted[..k] ensures Find(catalogue, BookKey, r.bookId).Some? {
      assert r in sorted;
      assert r in multiset(scores);
      var q :| 0 <= q < |scores| && scores[q] == r;
      assert BookKey(catalogue[q]) == r.bookId;
    }
  }

  /** The `map` from the top records back to books: each resolved to the first catalogue book with its id. */
  method ResolveBooks(catalogue: seq<Book>, top: seq<RecommendationScore>) returns (books: seq<Book>)
    requires forall r :: r in top ==> Find(catalogue, BookKey, r.bookId).Some?
    ensures |books| == |top|
    ensures forall j :: 0 <= j < |top| ==> Find(catalogue, BookKey, top[j].bookId) == Some(books[j])
    ensures forall b :: b in books ==> b in catalogue
  {
    books := [];
    var i := 0;
    while i < |top|
      invariant 0 <= i <= |top| && |books| == i
      invariant forall j :: 0 <= j < i ==> Find(catalogue, BookKey, top[j].bookId) == Some(books[j])
    {
      var found := Find(catalogue, BookKey, top[i].bookId);
      books := books + [found.value];
      i := i + 1;
    }
    forall b | b in books ensures b in catalogue {
      var j :| 0 <= j < |books| && books[j] == b;
      assert Find(catalogue, BookKey, top[j].bookId) == Some(b);
    }
  }

  /** The resolved top of the sorted scores is a recommendation in the sense of `Recommends`. */
  lemma ResolvedTopRecommends(user: User, catalogue: seq<Book>, limit: int, now: int, shuffled: seq<Book>,
                              scores: seq<RecommendationScore>, sorted: seq<RecommendationScore>, origin: seq<int>,
                              books: seq<Book>)
    requires !IsColdStart(user)
    requires ScoresOf(user, catalogue, now, scores)
    requires multiset(sorted) == multiset(scores)
    requires Tracks(sorted, scores, origin)
    requires TiesInOrder(sorted, origin)
    requires NonIncreasing(sorted)
    requires |books| == SliceLength(|sorted|, limit)
    requires forall j :: 0 <= j < |books| ==> Find(catalogue, BookKey, sorted[j].bookId) == Some(books[j])
    requires forall b :: b in books ==> b in catalogue
    ensures Recommends(user, catalogue, limit, now, shuffled, books)
  {
    assert |sorted| == |multiset(sorted)| == |multiset(scores)| == |catalogue|;
    if UniqueIds(catalogue) {
      RankedPrefixIsTop(user, catalogue, now, scores, sorted, books);
      RankedPrefixTieBreak(user, catalogue, now, scores, sorted, origin, books);
    }
  }

  /**
   * Ranks the catalogue for `user`: a shuffled prefix on a cold start;
   * otherwise scores every book, sorts the scores highest first, keeps the
   * first `limit` and resolves each back to its book by id.
   */
  method Rank(user: User, catalogue: seq<Book>, limit: int, now: int, shuffled: seq<Book>) returns (books: seq<Book>)
    requires multiset(shuffled) == multiset(catalogue)
    ensures Recommends(user, catalogue, limit, now, shuffled, books)
  {
    if IsColdStart(user) {
      ShuffledPrefix(catalogue, shuffled, limit);
      books := shuffled[..SliceLength(|shuffled|, limit)];
    } else {
      books := RankByScore(user, catalogue, limit, now, shuffled);
    }
  }

  /** The scores, copied into an array and sorted there highest first. */
  method SortScores(scores: seq<RecommendationScore>) returns (sorted: seq<RecommendationScore>, ghost origin: seq<int>)
    ensures NonIncreasing(sorted)
    ensures multiset(sorted) == multiset(scores)
    ensures Tracks(sorted, scores, origin)
    ensures TiesInOrder(sorted, origin)
  {
    var a := new RecommendationScore[|scores|](i requires 0 <= i < |scores| => scores[i]);
    assert a[..] == scores;
    origin := SortByScoreDescending(a);
    sorted := a[..];
  }

  /** The scored path of Rank: score, sort highest first, keep `limit`, resolve by id. */
  method RankByScore(user: User, catalogue: seq<Book>, limit: int, now: int, shuffled: seq<Book>) returns (books: seq<Book>)
    requires !IsColdStart(user)
    ensures Recommends(user, catalogue, limit, now, shuffled, books)
  {
    var scores := ScoreBooks(user, catalogue, now);
    var sorted;
    ghost var origin;
    sorted, origin := SortScores(scores);
    var top := sorted[..SliceLength(|sorted|, limit)];

    SortedIdsResolve(user, catalogue, now, scores, sorted, |top|);
    books := ResolveBooks(catalogue, top);
    ResolvedTopRecommends(user, catalogue, limit, now, shuffled, scores, sorted, origin, books);
  }

  /** The engine's entry point: reads (or creates) the stored user, then ranks the store's catalogue. */
  method GetRecommendedBooks(store: UserStore, now: int, randomId: string, shuffled: seq<Book>, limit: int := 10)
    returns (books: seq<Book>)
    requires multiset(shuffled) == multiset(store.catalogue)
    modifies store
    ensures store.slot == Some(old(store.Current(randomId)))
    ensures Recommends(old(store.Current(randomId)), store.catalogue, limit, now, shuffled, books)
  {
    var user := store.GetUserData(randomId);
    var allBooks := store.GetAllBooks();
    books := Rank(user, allBooks, limit, now, shuffled);
  }

  /** The catalogue books carrying `genre`, in catalogue order. */
  function FilterByGenre(books: seq<Book>, genre: string): (r: seq<Book>)
    ensures |r| <= |books|
    ensures forall b :: b in r <==> b in books && genre in b.genres
  {
    if |books| == 0 then []
    else (if genre in books[0].genres then [books[0]] else []) + FilterByGenre(books[1..], genre)
  }

  /** Filtering distributes over concatenation, so the result keeps catalogue order. */
  lemma {:induction false} FilterByGenreConcat(xs: seq<Book>, ys: seq<Book>, genre: string)
    ensures FilterByGenre(xs + ys, genre) == FilterByGenre(xs, genre) + FilterByGenre(ys, genre)
    decreases |xs|
  {
    if |xs| == 0 {
      assert xs + ys == ys;
    } else {
      assert (xs + ys)[1..] == xs[1..] + ys;
      FilterByGenreConcat(xs[1..], ys, genre);
    }
  }

  /** The store's catalogue filtered by genre. */
  function GetBooksByGenre(store: UserStore, genre: string): (r: seq<Book>)
    ensures forall b :: b in r <==> b in store.catalogue && genre in b.genres
  {
    FilterByGenre(store.GetAllBooks(), genre)
  }

  /**
   * Two books, a user preferring Mystery and no history: the Mystery book
   * scores 5, the Fantasy book 0.
   */
  lemma GenreOnlyScenario(now: int)
    ensures var a := Book("A", "", "", "", "", ["Mystery"], 0.0, "", 0);
            var b := Book("B", "", "", "", "", ["Fantasy"], 0.0, "", 0);
            var user := User("u", Preferences(["Mystery"], []), History([], [], []));
            BookScore(user, a, now) == 5.0 && BookScore(user, b, now) == 0.0
  {
  }

  /**
   * The same user rates A with 5 now: A's raw score is 5 + 5 * 2 * 10 = 105,
   * halved by saturation to 52.5, while B (a second Mystery book) scores 5;
   * A still ranks above B.
   */
  lemma SaturationScenario(now: int)
    ensures var a := Book("A", "", "", "", "", ["Mystery"], 0.0, "", 0);
            var b := Book("B", "", "", "", "", ["Mystery"], 0.0, "", 0);
            var user := User("u", Preferences(["Mystery"], []), History([], [BookRating("A", 5.0, now)], []));
            RawScore(user, a, now) == 105.0 && BookScore(user, a, now) == 52.5 && BookScore(user, b, now) == 5.0
  {
    var user := User("u", Preferences(["Mystery"], []), History([], [BookRating("A", 5.0, now)], []));
    assert Find(user.history.rated, RatingKey, "A") == Some(BookRating("A", 5.0, now));
    assert Find(user.history.rated, RatingKey, "B") == None;
  }
}
