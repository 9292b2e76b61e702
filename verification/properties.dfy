/**
 Properties of the document store that relate several calls or hold across
 every operation: the per-user movie-id invariant, the user directory
 invariant, idempotent deletion, id reuse after deletion, and the merge
 semantics of updates.
 */
module StoreProperties {
  import opened Wrappers
  import opened Json
  import opened Decimal
  import opened MovieStore

  // ---------------------------------------------------------------------------
  // Movie ids
  // ---------------------------------------------------------------------------

  predicate PositiveIds(ms: seq<Movie>)
    requires MoviesHaveIds(ms)
  {
    forall j :: 0 <= j < |ms| ==> IdOf(ms[j]) >= 1
  }

  /** Ids are positive and pairwise distinct within every user's list. */
  predicate IdsSound(users: Users) {
    && IdsDistinctPerUser(users)
    && forall i :: 0 <= i < |users| ==> PositiveIds(users[i].movies)
  }

  /** `add_user` keeps ids positive and distinct within each user: the new user has no movies. */
  lemma AddUserKeepsIdsSound(users: Users, name: string)
    requires IdsSound(users)
    ensures IdsSound(AddUser(users, name).state)
  {
  }

  /** `add_movie` keeps ids positive and distinct within each user. */
  lemma AddMovieKeepsIdsSound(users: Users, uid: string, e: Enrichment)
    requires IdsSound(users)
    ensures IdsSound(AddMovie(users, uid, e).state)
  {
  }

  /** Filtering distributes over concatenation: the kept movies stay in their original order. */
  lemma {:induction false} RemoveIdAppend(a: seq<Movie>, b: seq<Movie>, mid: int)
    requires MoviesHaveIds(a) && MoviesHaveIds(b)
    ensures MoviesHaveIds(a + b)
    ensures RemoveId(a + b, mid) == RemoveId(a, mid) + RemoveId(b, mid)
    decreases |a|
  {
    if |a| == 0 {
      assert a + b == b;
    } else {
      var ab := a + b;
      assert ab[0] == a[0];
      assert ab[1..] == a[1..] + b;
      RemoveIdAppend(a[1..], b, mid);
      if IdOf(a[0]) == mid {
        calc {
          RemoveId(ab, mid);
          RemoveId(a[1..] + b, mid);
          RemoveId(a[1..], mid) + RemoveId(b, mid);
          RemoveId(a, mid) + RemoveId(b, mid);
        }
      } else {
        calc {
          RemoveId(ab, mid);
          [a[0]] + RemoveId(a[1..] + b, mid);
          [a[0]] + (RemoveId(a[1..], mid) + RemoveId(b, mid));
          ([a[0]] + RemoveId(a[1..], mid)) + RemoveId(b, mid);
          RemoveId(a, mid) + RemoveId(b, mid);
        }
      }
    }
  }

  /** Filtering out an id no movie has changes nothing. */
  lemma {:induction false} RemoveAbsentId(ms: seq<Movie>, mid: int)
    requires MoviesHaveIds(ms) && NoMovie(ms, mid)
    ensures RemoveId(ms, mid) == ms
    decreases |ms|
  {
    if |ms| > 0 {
      RemoveAbsentId(ms[1..], mid);
      assert [ms[0]] + ms[1..] == ms;
    }
  }

  /** Every movie the filter keeps comes from the tail it filtered, so its id differs from the head's. */
  lemma KeptTailIdsDiffer(ms: seq<Movie>, mid: int)
    requires MoviesHaveIds(ms) && DistinctIds(ms) && |ms| > 0
    ensures forall k :: 0 <= k < |RemoveId(ms[1..], mid)| ==>
      IdOf(RemoveId(ms[1..], mid)[k]) != IdOf(ms[0])
  {
    var tail := ms[1..];
    var rest := RemoveId(tail, mid);
    forall k | 0 <= k < |rest|
      ensures IdOf(rest[k]) != IdOf(ms[0])
    {
      assert rest[k] in tail;
      var k' :| 0 <= k' < |tail| && tail[k'] == rest[k];
      assert ms[k' + 1] == rest[k];
    }
  }

  /** Filtering keeps ids pairwise distinct. */
  lemma {:induction false} RemoveIdKeepsDistinct(ms: seq<Movie>, mid: int)
    requires MoviesHaveIds(ms) && DistinctIds(ms)
    ensures DistinctIds(RemoveId(ms, mid))
    decreases |ms|
  {
    if |ms| > 0 && IdOf(ms[0]) != mid {
      var rest := RemoveId(ms[1..], mid);
      RemoveIdKeepsDistinct(ms[1..], mid);
      KeptTailIdsDiffer(ms, mid);
      var s := [ms[0]] + rest;
      forall j, k | 0 <= j < k < |s|
        ensures IdOf(s[j]) != IdOf(s[k])
      {
        assert s[k] == rest[k - 1];
        if j > 0 {
          assert s[j] == rest[j - 1];
        }
      }
      assert RemoveId(ms, mid) == s;
    } else if |ms| > 0 {
      RemoveIdKeepsDistinct(ms[1..], mid);
    }
  }

  /** Filtering keeps ids positive and pairwise distinct. */
  lemma RemoveIdKeepsIdsSound(ms: seq<Movie>, mid: int)
    requires MoviesHaveIds(ms) && DistinctIds(ms) && PositiveIds(ms)
    ensures DistinctIds(RemoveId(ms, mid)) && PositiveIds(RemoveId(ms, mid))
  {
    RemoveIdKeepsDistinct(ms, mid);
    var r := RemoveId(ms, mid);
    forall j | 0 <= j < |r|
      ensures IdOf(r[j]) >= 1
    {
      assert r[j] in ms;
    }
  }

  /** `delete_movie` keeps ids positive and distinct within each user. */
  lemma DeleteMovieKeepsIdsSound(users: Users, uid: string, mid: int)
    requires IdsSound(users)
    ensures IdsSound(DeleteMovie(users, uid, mid))
  {
    match FindUser(users, uid)
    case None =>
    case Some(i) => RemoveIdKeepsIdsSound(users[i].movies, mid);
  }

  /** Deleting an id the first matching user does not hold changes nothing. */
  lemma DeleteAbsentMovie(users: Users, uid: string, mid: int, i: int)
    requires WellFormed(users)
    requires IsFirstUser(users, uid, i) && NoMovie(users[i].movies, mid)
    ensures DeleteMovie(users, uid, mid) == users
  {
    assert FindUser(users, uid) == Some(i);
    RemoveAbsentId(users[i].movies, mid);
    assert users[i].(movies := users[i].movies) == users[i];
  }

  /** `delete_movie` is idempotent: repeating it writes the same document again. */
  lemma DeleteMovieIdempotent(users: Users, uid: string, mid: int)
    requires WellFormed(users)
    ensures var once := DeleteMovie(users, uid, mid);
      DeleteMovie(once, uid, mid) == once
  {
    var once := DeleteMovie(users, uid, mid);
    match FindUser(users, uid)
    case None =>
    case Some(i) =>
      assert IsFirstUser(once, uid, i);
      assert FindUser(once, uid) == Some(i);
      RemoveAbsentId(once[i].movies, mid);
  }

  /**
   Once every movie with the top id `t` is filtered out, the id `n` that
   max-plus-one assigns next is at most `t`, and equals `t` exactly when `t`
   is 1 or `t - 1` was present.
   */
  lemma NextIdAfterTopRemoved(ms: seq<Movie>, n: int)
    requires MoviesHaveIds(ms) && PositiveIds(ms) && |ms| > 0
    requires var kept := RemoveId(ms, MaxId(ms));
      && (forall k :: 0 <= k < |kept| ==> IdOf(kept[k]) < n)
      && (|kept| == 0 ==> n == 1)
      && (|kept| > 0 ==> exists k :: 0 <= k < |kept| && IdOf(kept[k]) == n - 1)
    ensures n <= MaxId(ms)
    ensures n == MaxId(ms) <==> MaxId(ms) == 1 || exists j :: 0 <= j < |ms| && IdOf(ms[j]) == MaxId(ms) - 1
  {
  }

  /**
   Ids are reused: after deleting the top id `t` of a user and adding a movie,
   the new movie follows the kept ones and its id is at most `t`, exactly `t`
   precisely when `t` is 1 or the id `t - 1` was present.
   */
  lemma DeleteTopThenAdd(users: Users, uid: string, i: int, e: Enrichment)
    requires IdsSound(users)
    requires IsFirstUser(users, uid, i) && |users[i].movies| > 0
    requires e.Found?
    ensures var ms := users[i].movies;
      var t := MaxId(ms);
      var after := AddMovie(DeleteMovie(users, uid, t), uid, e).state;
      var kept := RemoveId(ms, t);
      && |after[i].movies| == |kept| + 1
      && after[i].movies[..|kept|] == kept
      && IdOf(after[i].movies[|kept|]) <= t
      && (IdOf(after[i].movies[|kept|]) == t <==>
            t == 1 || exists j :: 0 <= j < |ms| && IdOf(ms[j]) == t - 1)
  {
    var ms := users[i].movies;
    var t := MaxId(ms);
    var deleted := DeleteMovie(users, uid, t);
    assert IsFirstUser(deleted, uid, i);
    assert deleted[i].movies == RemoveId(ms, t) by {
      assert FindUser(users, uid) == Some(i);
    }
    var after := AddMovie(deleted, uid, e).state;
    NextIdAfterTopRemoved(ms, IdOf(after[i].movies[|deleted[i].movies|]));
  }

  // ---------------------------------------------------------------------------
  // Updates
  // ---------------------------------------------------------------------------

  /** The located movie is merged with the update; every other movie and user is left alone. */
  lemma UpdateMovieMerges(users: Users, uid: string, mid: int, upd: Movie, i: int, j: int)
    requires WellFormed(users)
    requires FirstLocated(users, uid, mid, i, j)
    ensures var r := UpdateMovie(users, uid, mid, upd);
      && (forall k :: 0 <= k < |users| && k != i ==> r[k] == users[k])
      && (forall k :: 0 <= k < |users[i].movies| && k != j ==> r[i].movies[k] == users[i].movies[k])
      && r[i].movies[j] == Merge(users[i].movies[j], upd)
  {
  }

  /** An update without an `id` key leaves every movie id where it was. */
  lemma UpdateWithoutIdKeepsIds(users: Users, uid: string, mid: int, upd: Movie)
    requires WellFormed(users)
    requires IdKey !in upd
    ensures var r := UpdateMovie(users, uid, mid, upd);
      && WellFormed(r)
      && forall k, j :: 0 <= k < |r| && 0 <= j < |r[k].movies| ==>
           IdOf(r[k].movies[j]) == IdOf(users[k].movies[j])
  {
  }

  /** An update without an `id` key keeps ids positive and distinct within each user. */
  lemma UpdateMovieKeepsIdsSound(users: Users, uid: string, mid: int, upd: Movie)
    requires IdsSound(users)
    requires IdKey !in upd
    ensures IdsSound(UpdateMovie(users, uid, mid, upd))
  {
  }

  /** Reading back an updated movie yields the merged record. */
  lemma GetAfterUpdate(users: Users, uid: string, mid: int, upd: Movie, i: int, j: int)
    requires WellFormed(users)
    requires FirstLocated(users, uid, mid, i, j)
    requires IdKey !in upd
    ensures var r := UpdateMovie(users, uid, mid, upd);
      WellFormed(r) && GetMovie(r, uid, mid) == Some(Merge(users[i].movies[j], upd))
  {
    var r := UpdateMovie(users, uid, mid, upd);
    UpdateMovieMerges(users, uid, mid, upd, i, j);
    UpdateWithoutIdKeepsIds(users, uid, mid, upd);
    forall i', j' ensures Located(r, uid, mid, i', j') <==> Located(users, uid, mid, i', j') {
    }
    assert FirstLocated(r, uid, mid, i, j);
  }

  // ---------------------------------------------------------------------------
  // The user directory
  // ---------------------------------------------------------------------------

  /** User `i` (counting from 0) has id `str(i + 1)`: the ids `add_user` hands out. */
  predicate SequentialIds(users: Users) {
    forall i :: 0 <= i < |users| ==> users[i].userId == NatToString(i + 1)
  }

  predicate DistinctNames(users: Users) {
    forall i, j :: 0 <= i < j < |users| ==> users[i].name != users[j].name
  }

  /** Two user lists agree on every user's id and name. */
  predicate SameDirectory(a: Users, b: Users) {
    && |a| == |b|
    && forall k :: 0 <= k < |a| ==> a[k].userId == b[k].userId && a[k].name == b[k].name
  }

  /** `add_user` keeps ids sequential and names distinct. */
  lemma AddUserKeepsDirectory(users: Users, name: string)
    requires SequentialIds(users) && DistinctNames(users)
    ensures var r := AddUser(users, name).state;
      SequentialIds(r) && DistinctNames(r)
  {
    var r := AddUser(users, name).state;
    if !NameInUse(users, name) {
      assert forall i :: 0 <= i < |users| ==> r[i] == r[..|users|][i] == users[i];
    }
  }

  /** Adding a movie never touches a user's id or name, nor the number of users. */
  lemma AddMovieKeepsDirectory(users: Users, uid: string, e: Enrichment)
    requires WellFormed(users)
    ensures SameDirectory(users, AddMovie(users, uid, e).state)
  {
  }

  /** Updating a movie never touches a user's id or name, nor the number of users. */
  lemma UpdateMovieKeepsDirectory(users: Users, uid: string, mid: int, upd: Movie)
    requires WellFormed(users)
    ensures SameDirectory(users, UpdateMovie(users, uid, mid, upd))
  {
  }

  /** Deleting a movie never touches a user's id or name, nor the number of users. */
  lemma DeleteMovieKeepsDirectory(users: Users, uid: string, mid: int)
    requires WellFormed(users)
    ensures SameDirectory(users, DeleteMovie(users, uid, mid))
  {
  }

  /** With ids handed out by `add_user`, no two users share an id. */
  lemma SequentialIdsAreUnique(users: Users)
    requires SequentialIds(users)
    ensures forall i, j :: 0 <= i < j < |users| ==> users[i].userId != users[j].userId
  {
    forall i, j | 0 <= i < j < |users|
      ensures users[i].userId != users[j].userId
    {
      RenderInjective(i + 1, j + 1);
    }
  }
}
