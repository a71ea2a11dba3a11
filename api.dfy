/**
 * The user-state store and catalogue accessor.  The single browser storage
 * slot that holds the serialised user becomes the field `slot`.  Reading the
 * user stores a fresh empty user when the slot is empty; every write
 * operation reads the user, changes it and writes the whole user back.  The
 * catalogue accessors never touch the slot.  The clock and the random part
 * of a fresh user's id are parameters.
 */
module Api {
  import opened Types
  import opened Keyed

  /** Both keyed history lists hold at most one record per book. */
  predicate WellKeyed(u: User)
  {
    UniqueKeys(u.history.rated, RatingKey) && UniqueKeys(u.history.timeSpent, TimeKey)
  }

  /** The user created on first contact: id "user_" followed by a random suffix, nothing else. */
  function NewUser(randomId: string): User
  {
    User("user_" + randomId, Preferences([], []), History([], [], []))
  }

  /**
   * The ratings after rating `bookId` with `rating` at `now`: the first
   * record for that book is replaced in place, or a record is appended.
   */
  function UpsertRating(rated: seq<BookRating>, bookId: string, rating: real, now: int): seq<BookRating>
  {
    var i := FirstIndex(rated, RatingKey, bookId);
    if i >= 0 then rated[i := BookRating(bookId, rating, now)] else rated + [BookRating(bookId, rating, now)]
  }

  /**
   * `r` is `rated` after rating `bookId` with `rating` at `now`: looking the
   * book up yields the new rating; every other book's lookup and position is
   * unchanged; the list grows only when the book had no rating; the book's
   * record count is kept (or becomes 1); and a keyed list stays keyed.
   */
  ghost predicate Upserted(rated: seq<BookRating>, bookId: string, rating: real, now: int, r: seq<BookRating>)
  {
    Upserts(rated, RatingKey, bookId, BookRating(bookId, rating, now), r)
  }

  /** UpsertRating performs an upsert in the sense of `Upserted`. */
  lemma UpsertRatingSpec(rated: seq<BookRating>, bookId: string, rating: real, now: int)
    ensures Upserted(rated, bookId, rating, now, UpsertRating(rated, bookId, rating, now))
  {
    if FirstIndex(rated, RatingKey, bookId) >= 0 {
      UpsertExisting(rated, bookId, rating, now);
    } else {
      UpsertFresh(rated, bookId, rating, now);
    }
  }

  /** UpsertRatingSpec when the book already has a rating. */
  lemma UpsertExisting(rated: seq<BookRating>, bookId: string, rating: real, now: int)
    requires FirstIndex(rated, RatingKey, bookId) >= 0
    ensures Upserted(rated, bookId, rating, now, UpsertRating(rated, bookId, rating, now))
  {
    var record := BookRating(bookId, rating, now);
    var i := FirstIndex(rated, RatingKey, bookId);
    assert UpsertRating(rated, bookId, rating, now) == rated[i := record];
    ReplaceFirst(rated, i, record, RatingKey, bookId);
  }

  /** UpsertRatingSpec when the book has no rating yet. */
  lemma UpsertFresh(rated: seq<BookRating>, bookId: string, rating: real, now: int)
    requires FirstIndex(rated, RatingKey, bookId) < 0
    ensures Upserted(rated, bookId, rating, now, UpsertRating(rated, bookId, rating, now))
  {
    var record := BookRating(bookId, rating, now);
    assert UpsertRating(rated, bookId, rating, now) == rated + [record];
    assert Find(rated, RatingKey, bookId).None?;
    AppendFresh(rated, record, RatingKey, bookId);
  }

  /**
   * The time-spent records after `duration` more milliseconds on `bookId`
   * at `now`: the first record for that book accumulates the duration and
   * takes the new timestamp, or a record is appended.
   */
  function AccumulateTime(spent: seq<BookTimeSpent>, bookId: string, duration: real, now: int): seq<BookTimeSpent>
  {
    var i := FirstIndex(spent, TimeKey, bookId);
    if i >= 0 then spent[i := Extended(spent[i], duration, now)]
    else spent + [BookTimeSpent(bookId, duration, now)]
  }

  /** A time record with `duration` more milliseconds, last updated at `now`. */
  function Extended(t: BookTimeSpent, duration: real, now: int): BookTimeSpent
  {
    BookTimeSpent(t.bookId, t.duration + duration, now)
  }

  /** The total time recorded for a book: its record's duration, or 0 when it has none. */
  function RecordedTime(spent: seq<BookTimeSpent>, bookId: string): real
  {
    var found := Find(spent, TimeKey, bookId);
    if found.Some? then found.value.duration else 0.0
  }

  /**
   * `r` is `spent` after `duration` more milliseconds on `bookId` at `now`:
   * looking the book up yields a record holding the previous total plus
   * `duration`, stamped `now`; every other book's lookup and position is
   * unchanged; the list grows only when the book had no record; the book's
   * record count is kept (or becomes 1); and a keyed list stays keyed.
   */
  ghost predicate Accumulated(spent: seq<BookTimeSpent>, bookId: string, duration: real, now: int, r: seq<BookTimeSpent>)
  {
    Upserts(spent, TimeKey, bookId, BookTimeSpent(bookId, RecordedTime(spent, bookId) + duration, now), r)
  }

  /** AccumulateTime performs an accumulation in the sense of `Accumulated`. */
  lemma AccumulateTimeSpec(spent: seq<BookTimeSpent>, bookId: string, duration: real, now: int)
    ensures Accumulated(spent, bookId, duration, now, AccumulateTime(spent, bookId, duration, now))
  {
    if FirstIndex(spent, TimeKey, bookId) >= 0 {
      AccumulateExisting(spent, bookId, duration, now);
    } else {
      AccumulateFresh(spent, bookId, duration, now);
    }
  }

  /** AccumulateTimeSpec when the book already has a record. */
  lemma AccumulateExisting(spent: seq<BookTimeSpent>, bookId: string, duration: real, now: int)
    requires FirstIndex(spent, TimeKey, bookId) >= 0
    ensures Accumulated(spent, bookId, duration, now, AccumulateTime(spent, bookId, duration, now))
  {
    var i := FirstIndex(spent, TimeKey, bookId);
    var e := Extended(spent[i], duration, now);
    assert AccumulateTime(spent, bookId, duration, now) == spent[i := e];
    assert Find(spent, TimeKey, bookId) == Some(spent[i]);
    assert TimeKey(e) == bookId && e == BookTimeSpent(bookId, RecordedTime(spent, bookId) + duration, now);
    ReplaceFirst(spent, i, e, TimeKey, bookId);
  }

  /** AccumulateTimeSpec when the book has no record yet. */
  lemma AccumulateFresh(spent: seq<BookTimeSpent>, bookId: string, duration: real, now: int)
    requires FirstIndex(spent, TimeKey, bookId) < 0
    ensures Accumulated(spent, bookId, duration, now, AccumulateTime(spent, bookId, duration, now))
  {
    var y := BookTimeSpent(bookId, duration, now);
    assert TimeKey(y) == bookId;
    assert AccumulateTime(spent, bookId, duration, now) == spent + [y];
    assert Find(spent, TimeKey, bookId).None?;
    assert BookTimeSpent(bookId, RecordedTime(spent, bookId) + duration, now) == y;
    AppendFresh(spent, y, TimeKey, bookId);
  }

  class UserStore {
    /** The storage slot: empty, or the whole serialised user. */
    var slot: Option<User>
    /** The static catalogue the accessors read. */
    const catalogue: seq<Book>

    /** Every user this store holds keeps one rating and one time record per book. */
    predicate Valid()
      reads this
    {
      slot.Some? ==> WellKeyed(slot.value)
    }

    constructor (stored: Option<User>, books: seq<Book>)
      ensures slot == stored && catalogue == books
    {
      slot := stored;
      catalogue := books;
    }

    /** The user the next read yields: the stored one, or a fresh one when the slot is empty. */
    function Current(randomId: string): User
      reads this
    {
      match slot
      case Some(u) => u
      case None => NewUser(randomId)
    }

    /** Returns the stored user; when the slot is empty, creates an empty user and stores it. */
    method GetUserData(randomId: string) returns (user: User)
      modifies this
      ensures user == old(Current(randomId))
      ensures slot == Some(user)
      ensures old(slot).None? ==> user.id == "user_" + randomId
                                  && user.preferences.genres == [] && user.preferences.authors == []
                                  && user.history.viewed == [] && user.history.rated == []
                                  && user.history.timeSpent == []
      ensures old(slot).Some? ==> user == old(slot).value
      ensures old(Valid()) ==> Valid()
    {
      if slot.Some? {
        user := slot.value;
      } else {
        user := NewUser(randomId);
        slot := Some(user);
      }
    }

    /** Replaces both preference lists; id and history are kept. */
    method UpdateUserPreferences(genres: seq<string>, randomId: string, authors: seq<string> := [])
      modifies this
      ensures var u := old(Current(randomId));
              slot == Some(u.(preferences := Preferences(genres, authors)))
      ensures old(Valid()) ==> Valid()
    {
      var user := GetUserData(randomId);
      user := user.(preferences := user.preferences.(genres := genres));
      user := user.(preferences := user.preferences.(authors := authors));
      slot := Some(user);
    }

    /** Appends one view record; nothing else in the user changes. */
    method RecordBookView(bookId: string, now: int, randomId: string)
      modifies this
      ensures var u := old(Current(randomId));
              slot == Some(u.(history := u.history.(viewed := u.history.viewed + [BookInteraction(bookId, now, None)])))
      ensures old(Valid()) ==> Valid()
    {
      var user := GetUserData(randomId);
      var viewed := user.history.viewed;
      viewed := viewed + [BookInteraction(bookId, now, None)];
      user := user.(history := user.history.(viewed := viewed));
      slot := Some(user);
    }

    /** Replaces the rating for `bookId` in place, or appends one. */
    method RecordBookRating(bookId: string, rating: real, now: int, randomId: string)
      modifies this
      ensures var u := old(Current(randomId));
              slot == Some(u.(history := u.history.(rated := UpsertRating(u.history.rated, bookId, rating, now))))
      ensures old(Valid()) ==> Valid()
    {
      var user := GetUserData(randomId);
      var rated := user.history.rated;
      var existing := FirstIndex(rated, RatingKey, bookId);
      if existing >= 0 {
        rated := rated[existing := BookRating(bookId, rating, now)];
      } else {
        rated := rated + [BookRating(bookId, rating, now)];
      }
      user := user.(history := user.history.(rated := rated));
      slot := Some(user);
      UpsertRatingSpec(old(Current(randomId)).history.rated, bookId, rating, now);
    }

    /** Adds `duration` to the time record for `bookId` and refreshes its timestamp, or appends one. */
    method RecordTimeSpent(bookId: string, duration: real, now: int, randomId: string)
      modifies this
      ensures var u := old(Current(randomId));
              slot == Some(u.(history := u.history.(timeSpent := AccumulateTime(u.history.timeSpent, bookId, duration, now))))
      ensures old(Valid()) ==> Valid()
    {
      var user := GetUserData(randomId);
      var spent := user.history.timeSpent;
      var existing := FirstIndex(spent, TimeKey, bookId);
      if existing >= 0 {
        spent := spent[existing := Extended(spent[existing], duration, now)];
      } else {
        spent := spent + [BookTimeSpent(bookId, duration, now)];
      }
      user := user.(history := user.history.(timeSpent := spent));
      slot := Some(user);
      AccumulateTimeSpec(old(Current(randomId)).history.timeSpent, bookId, duration, now);
    }

    /** The whole catalogue. */
    function GetAllBooks(): seq<Book>
    {
      catalogue
    }

    /** The first catalogue book with id `id`, or none when no book has it. */
    function GetBookById(id: string): (r: Option<Book>)
      ensures r.Some? ==> exists i :: 0 <= i < |catalogue| && catalogue[i] == r.value && r.value.id == id
                                      && forall j :: 0 <= j < i ==> catalogue[j].id != id
      ensures r.None? <==> forall b :: b in catalogue ==> b.id != id
      ensures UniqueKeys(catalogue, BookKey) ==> forall b :: b in catalogue && b.id == id ==> r == Some(b)
    {
      Find(catalogue, BookKey, id)
    }
  }

  /** Rating a book that has at most one rating, twice, leaves exactly one record, holding the second rating. */
  lemma RatingTwiceKeepsOneRecord(rated: seq<BookRating>, bookId: string, first: real, second: real, t1: int, t2: int)
    requires KeyCount(rated, RatingKey, bookId) <= 1
    ensures var r := UpsertRating(UpsertRating(rated, bookId, first, t1), bookId, second, t2);
            KeyCount(r, RatingKey, bookId) == 1 && Find(r, RatingKey, bookId) == Some(BookRating(bookId, second, t2))
  {
    var once := UpsertRating(rated, bookId, first, t1);
    UpsertRatingSpec(rated, bookId, first, t1);
    UpsertRatingSpec(once, bookId, second, t2);
  }

  /** Two time observations for a book with no record yet leave one record holding their sum. */
  lemma TimeTwiceAccumulates(spent: seq<BookTimeSpent>, bookId: string, d1: real, d2: real, t1: int, t2: int)
    requires Find(spent, TimeKey, bookId).None?
    ensures var r := AccumulateTime(AccumulateTime(spent, bookId, d1, t1), bookId, d2, t2);
            KeyCount(r, TimeKey, bookId) == 1 && Find(r, TimeKey, bookId) == Some(BookTimeSpent(bookId, d1 + d2, t2))
  {
    var first := BookTimeSpent(bookId, d1, t1);
    var summed := BookTimeSpent(bookId, d1 + d2, t2);
    var once := AccumulateTime(spent, bookId, d1, t1);
    assert once == spent + [first];
    assert FirstIndex(once, TimeKey, bookId) == |spent| by {
      AppendLookups(spent, first, TimeKey, bookId);
    }
    assert Extended(once[|spent|], d2, t2) == summed;
    assert once[|spent| := summed] == spent + [summed];
    assert AccumulateTime(once, bookId, d2, t2) == spent + [summed];
    AppendFresh(spent, summed, TimeKey, bookId);
  }

  /**
   * Through the store's own operations: an empty slot, a rating of 3 and
   * then a rating of 5 for the same book leave one rating record, and a
   * later read returns the stored user.
   */
  method RatingUpsertScenario(t1: int, t2: int) returns (user: User)
    ensures user.history.rated == [BookRating("b", 5.0, t2)]
    ensures user.id == "user_" + "r"
  {
    var store := new UserStore(None, []);
    RatingScenarioValues(t1, t2);
    store.RecordBookRating("b", 3.0, t1, "r");
    assert store.slot.value.history.rated == UpsertRating([], "b", 3.0, t1);
    store.RecordBookRating("b", 5.0, t2, "s");
    assert store.slot.value.history.rated == [BookRating("b", 5.0, t2)];
    user := store.GetUserData("t");
  }

  /** Time observations of 1000 and 2000 ms for one book accumulate into one record of 3000 ms. */
  method TimeSpentScenario(t1: int, t2: int) returns (user: User)
    ensures user.history.timeSpent == [BookTimeSpent("b", 3000.0, t2)]
  {
    var store := new UserStore(None, []);
    store.RecordTimeSpent("b", 1000.0, t1, "r");
    store.RecordTimeSpent("b", 2000.0, t2, "r");
    TimeScenarioValues(t1, t2);
    user := store.GetUserData("r");
  }

  lemma RatingScenarioValues(t1: int, t2: int)
    ensures UpsertRating(UpsertRating([], "b", 3.0, t1), "b", 5.0, t2) == [BookRating("b", 5.0, t2)]
  {
    var once := UpsertRating([], "b", 3.0, t1);
    assert once == [BookRating("b", 3.0, t1)];
    var twice := UpsertRating(once, "b", 5.0, t2);
    assert FirstIndex(once, RatingKey, "b") == 0;
  }

  lemma TimeScenarioValues(t1: int, t2: int)
    ensures AccumulateTime(AccumulateTime([], "b", 1000.0, t1), "b", 2000.0, t2) == [BookTimeSpent("b", 3000.0, t2)]
  {
    var once := AccumulateTime([], "b", 1000.0, t1);
    assert once == [BookTimeSpent("b", 1000.0, t1)];
    assert FirstIndex(once, TimeKey, "b") == 0;
  }
}
