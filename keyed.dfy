/**
 * Linear lookups by key over a sequence of records, as JavaScript's
 * `Array.prototype.findIndex` and `Array.prototype.find` perform them, and
 * the notion of a sequence that is keyed (at most one record per key).
 */
module Keyed {
  import opened Types

  /** Index of the first record whose key is `id`, or -1 when there is none. */
  function FirstIndex<T>(s: seq<T>, key: T -> string, id: string): (i: int)
    ensures -1 <= i < |s|
    ensures i >= 0 ==> key(s[i]) == id && forall j :: 0 <= j < i ==> key(s[j]) != id
    ensures i < 0 <==> forall j :: 0 <= j < |s| ==> key(s[j]) != id
    decreases |s|
  {
    if |s| == 0 then -1
    else if key(s[0]) == id then 0
    else
      var rest := FirstIndex(s[1..], key, id);
      if rest < 0 then -1 else rest + 1
  }

  /** The first record whose key is `id`, if any. */
  function Find<T>(s: seq<T>, key: T -> string, id: string): (r: Option<T>)
    ensures r.Some? ==> exists i :: 0 <= i < |s| && s[i] == r.value && key(s[i]) == id
                                    && forall j :: 0 <= j < i ==> key(s[j]) != id
    ensures r.None? <==> forall j :: 0 <= j < |s| ==> key(s[j]) != id
  {
    var i := FirstIndex(s, key, id);
    if i >= 0 then Some(s[i]) else None
  }

  /** No two records share a key. */
  predicate UniqueKeys<T>(s: seq<T>, key: T -> string)
  {
    forall i, j :: 0 <= i < j < |s| ==> key(s[i]) != key(s[j])
  }

  /** Number of records whose key is `id`. */
  function KeyCount<T>(s: seq<T>, key: T -> string, id: string): (n: nat)
    ensures n <= |s|
    ensures n == 0 <==> forall j :: 0 <= j < |s| ==> key(s[j]) != id
  {
    if |s| == 0 then 0
    else KeyCount(s[..|s| - 1], key, id) + (if key(s[|s| - 1]) == id then 1 else 0)
  }

  /** Two sequences with the same keys position by position. */
  predicate SameKeys<T>(s: seq<T>, t: seq<T>, key: T -> string)
  {
    |s| == |t| && forall j :: 0 <= j < |s| ==> key(s[j]) == key(t[j])
  }

  /** Every lookup depends only on the keys, so a change that keeps every key keeps every lookup's position. */
  lemma {:induction false} SameKeysSameLookups<T>(s: seq<T>, t: seq<T>, key: T -> string, id: string)
    requires SameKeys(s, t, key)
    ensures FirstIndex(s, key, id) == FirstIndex(t, key, id)
    ensures KeyCount(s, key, id) == KeyCount(t, key, id)
    ensures UniqueKeys(s, key) <==> UniqueKeys(t, key)
    decreases |s|
  {
    if |s| > 0 {
      SameKeysSameLookups(s[..|s| - 1], t[..|t| - 1], key, id);
    }
  }

  /** Appending a record: the earlier records still win every lookup, and the count for its key grows by one. */
  lemma {:induction false} AppendLookups<T>(s: seq<T>, x: T, key: T -> string, id: string)
    ensures FirstIndex(s + [x], key, id)
            == (var i := FirstIndex(s, key, id); if i >= 0 then i else if key(x) == id then |s| else -1)
    ensures KeyCount(s + [x], key, id) == KeyCount(s, key, id) + (if key(x) == id then 1 else 0)
    decreases |s|
  {
    if |s| > 0 {
      assert (s + [x])[1..] == s[1..] + [x];
      AppendLookups(s[1..], x, key, id);
    }
    assert (s + [x])[..|s|] == s;
  }

  /** Appending a record with a fresh key to a keyed sequence keeps it keyed. */
  lemma AppendUnique<T>(s: seq<T>, x: T, key: T -> string)
    requires FirstIndex(s, key, key(x)) < 0
    ensures UniqueKeys(s, key) ==> UniqueKeys(s + [x], key)
  {
    var t := s + [x];
    if UniqueKeys(s, key) {
      forall i, j | 0 <= i < j < |t| ensures key(t[i]) != key(t[j]) {
      if j == |s| {
        assert key(s[i]) != key(x);
      }
    }
    }
  }

  /**
   * `r` is `s` after upserting `y` under the key `id`: the lookup for `id`
   * finds `y`; every other lookup and every record with another key keeps
   * its place; the sequence grows only when `id` was absent; the count of
   * `id` is kept (or becomes 1); and a keyed sequence stays keyed.
   */
  ghost predicate Upserts<T>(s: seq<T>, key: T -> string, id: string, y: T, r: seq<T>)
  {
    && Find(r, key, id) == Some(y)
    && (forall other :: other != id ==> Find(r, key, other) == Find(s, key, other))
    && |r| == (if Find(s, key, id).Some? then |s| else |s| + 1)
    && (forall j :: 0 <= j < |s| && key(s[j]) != id ==> r[j] == s[j])
    && KeyCount(r, key, id) == (if Find(s, key, id).Some? then KeyCount(s, key, id) else 1)
    && (UniqueKeys(s, key) ==> UniqueKeys(r, key))
  }

  /**
   * Replacing the first record with a given key by another record with that
   * key: the lookup for the key finds the new record, every other lookup and
   * every record under another key is unchanged, and so are the counts and
   * keyedness.
   */
  lemma ReplaceFirst<T>(s: seq<T>, i: nat, y: T, key: T -> string, id: string)
    requires key(y) == id && FirstIndex(s, key, id) == i
    ensures i < |s|
    ensures Upserts(s, key, id, y, s[i := y])
    ensures UniqueKeys(s[i := y], key) ==> UniqueKeys(s, key)
  {
    var r := s[i := y];
    assert Find(s, key, id) == Some(s[i]);
    assert SameKeys(s, r, key);
    SameKeysSameLookups(s, r, key, id);
    assert Find(r, key, id) == Some(y);
    forall other | other != id
      ensures Find(r, key, other) == Find(s, key, other)
    {
      SameKeysSameLookups(s, r, key, other);
      var k := FirstIndex(s, key, other);
      if k >= 0 {
        assert k != i;
      }
    }
  }

  /**
   * Appending a record whose key is absent: the lookup for its key finds it,
   * every other lookup and every earlier record is unchanged, the key occurs
   * once, and a keyed sequence stays keyed.
   */
  lemma AppendFresh<T>(s: seq<T>, y: T, key: T -> string, id: string)
    requires key(y) == id && FirstIndex(s, key, id) < 0
    ensures Upserts(s, key, id, y, s + [y])
    ensures forall j :: 0 <= j < |s| ==> (s + [y])[j] == s[j]
  {
    assert Find(s, key, id).None?;
    AppendLookups(s, y, key, id);
    forall other | other != id
      ensures Find(s + [y], key, other) == Find(s, key, other)
    {
      AppendLookups(s, y, key, other);
    }
    AppendUnique(s, y, key);
  }

  /** In a keyed sequence, each key occurs at most once. */
  lemma {:induction false} UniqueKeysCountAtMostOne<T>(s: seq<T>, key: T -> string, id: string)
    requires UniqueKeys(s, key)
    ensures KeyCount(s, key, id) <= 1
    decreases |s|
  {
    if |s| > 0 {
      var init := s[..|s| - 1];
      assert UniqueKeys(init, key);
      UniqueKeysCountAtMostOne(init, key, id);
      if key(s[|s| - 1]) == id {
        assert forall j :: 0 <= j < |init| ==> key(init[j]) != id;
      }
    }
  }

  /** In a keyed sequence, looking up a record's own key finds that record. */
  lemma FindOwnKey<T>(s: seq<T>, key: T -> string, q: nat)
    requires UniqueKeys(s, key)
    requires q < |s|
    ensures FirstIndex(s, key, key(s[q])) == q
    ensures Find(s, key, key(s[q])) == Some(s[q])
  {
  }
}
