/**
 The JSON document store behind the movie web application.

 The stored document is `{"users": [...]}`. Every public operation loads the
 user list, and all but `list_all_users` scan it; `add_movie` skips the load
 when its lookup fails. Only the mutating operations write the whole list
 back:
 - `delete_movie` always writes.
 - `add_movie` writes after a found lookup.
 - `update_movie` writes only when it finds the movie.
 - `add_user` writes only when the name is free.
 Loading and writing are the identity on the in-memory list here. So each
 operation is a pure function from the user list before the call to its reply
 and, for a mutation, the list it writes. A mutation that does not write is
 modelled as returning the list unchanged.
 */
module MovieStore {
  import opened Wrappers
  import opened Json
  import opened Decimal

  datatype User = User(userId: string, name: string, movies: seq<Movie>)

  type Users = seq<User>

  /** The reply an operation gives its caller together with the user list it writes. */
  datatype Transition<+R> = Transition(reply: R, state: Users)

  /** Where a movie sits: index of its user, index within that user's movies. */
  datatype Position = Position(user: nat, movie: nat)

  // ---------------------------------------------------------------------------
  // Well-formedness and the per-user id invariant
  // ---------------------------------------------------------------------------

  predicate MoviesHaveIds(ms: seq<Movie>) {
    forall j :: 0 <= j < |ms| ==> HasIntId(ms[j])
  }

  /** Every stored movie carries an integer id, as the persisted format prescribes. */
  predicate WellFormed(users: Users) {
    forall i :: 0 <= i < |users| ==> MoviesHaveIds(users[i].movies)
  }

  /** No two movies of one list share an id. */
  predicate DistinctIds(ms: seq<Movie>)
    requires MoviesHaveIds(ms)
  {
    forall j, k :: 0 <= j < k < |ms| ==> IdOf(ms[j]) != IdOf(ms[k])
  }

  /** Movie ids are unique within each user's list (not across users). */
  predicate IdsDistinctPerUser(users: Users) {
    && WellFormed(users)
    && forall i :: 0 <= i < |users| ==> DistinctIds(users[i].movies)
  }

  // ---------------------------------------------------------------------------
  // Linear scans
  // ---------------------------------------------------------------------------

  /** `i` is the first user whose `user_id` equals `uid`. */
  predicate IsFirstUser(users: Users, uid: string, i: int) {
    && 0 <= i < |users|
    && users[i].userId == uid
    && forall k :: 0 <= k < i ==> users[k].userId != uid
  }

  predicate NoUser(users: Users, uid: string) {
    forall k :: 0 <= k < |users| ==> users[k].userId != uid
  }

  /** The `for user in data: if user['user_id'] == user_id: ... break` scan. */
  function FindUser(users: Users, uid: string, from: nat := 0): (r: Option<nat>)
    requires from <= |users|
    requires forall k :: 0 <= k < from ==> users[k].userId != uid
    ensures r.Some? ==> IsFirstUser(users, uid, r.value)
    ensures r.None? ==> NoUser(users, uid)
    decreases |users| - from
  {
    if from == |users| then None
    else if users[from].userId == uid then Some(from)
    else FindUser(users, uid, from + 1)
  }

  /** `j` is the first movie of `ms` whose id is `mid`. */
  predicate IsFirstMovie(ms: seq<Movie>, mid: int, j: int)
    requires MoviesHaveIds(ms)
  {
    && 0 <= j < |ms|
    && IdOf(ms[j]) == mid
    && forall k :: 0 <= k < j ==> IdOf(ms[k]) != mid
  }

  predicate NoMovie(ms: seq<Movie>, mid: int)
    requires MoviesHaveIds(ms)
  {
    forall k :: 0 <= k < |ms| ==> IdOf(ms[k]) != mid
  }

  /** The `for movie in user['movies']: if movie['id'] == movie_id` scan. */
  function FindMovie(ms: seq<Movie>, mid: int, from: nat := 0): (r: Option<nat>)
    requires MoviesHaveIds(ms)
    requires from <= |ms|
    requires forall k :: 0 <= k < from ==> IdOf(ms[k]) != mid
    ensures r.Some? ==> IsFirstMovie(ms, mid, r.value)
    ensures r.None? ==> NoMovie(ms, mid)
    decreases |ms| - from
  {
    if from == |ms| then None
    else if IdOf(ms[from]) == mid then Some(from)
    else FindMovie(ms, mid, from + 1)
  }

  /** User `i` has id `uid` and holds a movie with id `mid` at index `j`. */
  ghost predicate Located(users: Users, uid: string, mid: int, i: int, j: int)
    requires WellFormed(users)
  {
    && 0 <= i < |users|
    && users[i].userId == uid
    && 0 <= j < |users[i].movies|
    && IdOf(users[i].movies[j]) == mid
  }

  /**
   `(i, j)` is the first hit of the nested scan: no user before `i` with a
   matching id holds the movie, and no movie before `j` in user `i` has it.
   */
  ghost predicate FirstLocated(users: Users, uid: string, mid: int, i: int, j: int)
    requires WellFormed(users)
  {
    && Located(users, uid, mid, i, j)
    && (forall i', j' :: 0 <= i' < i ==> !Located(users, uid, mid, i', j'))
    && forall j' :: 0 <= j' < j ==> !Located(users, uid, mid, i, j')
  }

  /**
   The nested scan shared by `get_movie` and `update_movie`. Unlike the other
   scans it does not stop at the first user with a matching id: when that user
   lacks the movie it goes on to later users with the same id.
   */
  function Locate(users: Users, uid: string, mid: int, from: nat := 0): (r: Option<Position>)
    requires WellFormed(users)
    requires from <= |users|
    requires forall i', j' :: 0 <= i' < from ==> !Located(users, uid, mid, i', j')
    ensures r.Some? ==> FirstLocated(users, uid, mid, r.value.user, r.value.movie)
    ensures r.None? ==> forall i', j' :: !Located(users, uid, mid, i', j')
    decreases |users| - from
  {
    if from == |users| then None
    else
      var hit := if users[from].userId == uid then FindMovie(users[from].movies, mid) else None;
      if hit.Some? then Some(Position(from, hit.value))
      else Locate(users, uid, mid, from + 1)
  }

  // ---------------------------------------------------------------------------
  // Movie ids
  // ---------------------------------------------------------------------------

  /** `max(movie['id'] for movie in movies, default=0)`. */
  function MaxId(ms: seq<Movie>): (r: int)
    requires MoviesHaveIds(ms)
    ensures forall j :: 0 <= j < |ms| ==> IdOf(ms[j]) <= r
    ensures |ms| == 0 ==> r == 0
    ensures |ms| > 0 ==> exists j :: 0 <= j < |ms| && IdOf(ms[j]) == r
    decreases |ms|
  {
    if |ms| == 0 then 0
    else if |ms| == 1 then IdOf(ms[0])
    else
      var front := MaxId(ms[..|ms| - 1]);
      var last := IdOf(ms[|ms| - 1]);
      if last > front then last else front
  }

  /** The id a newly added movie receives: one above the largest present. */
  function NextId(ms: seq<Movie>): (r: int)
    requires MoviesHaveIds(ms)
    ensures NoMovie(ms, r)
  {
    MaxId(ms) + 1
  }

  // ---------------------------------------------------------------------------
  // Operations
  // ---------------------------------------------------------------------------

  /** `list_all_users`: the loaded user list as it is. */
  function ListAllUsers(users: Users): Users {
    users
  }

  const NameTakenMessage: string := "User with this name already exists."

  datatype AddUserResult = Added(name: string) | NameTaken(message: string)

  /** The duplicate-name scan of `add_user`. */
  function NameInUse(users: Users, name: string, from: nat := 0): (b: bool)
    requires from <= |users|
    ensures b <==> exists k :: from <= k < |users| && users[k].name == name
    decreases |users| - from
  {
    if from == |users| then false
    else users[from].name == name || NameInUse(users, name, from + 1)
  }

  /**
   `add_user`: a name already held is rejected without writing; otherwise a
   user numbered one past the current count is appended with no movies.
   */
  function AddUser(users: Users, name: string): (r: Transition<AddUserResult>)
    ensures (exists k :: 0 <= k < |users| && users[k].name == name) ==>
      r.reply == NameTaken(NameTakenMessage) && r.state == users
    ensures (forall k :: 0 <= k < |users| ==> users[k].name != name) ==>
      && r.reply == Added(name)
      && |r.state| == |users| + 1
      && r.state[..|users|] == users
      && r.state[|users|] == User(NatToString(|users| + 1), name, [])
  {
    if NameInUse(users, name) then Transition(NameTaken(NameTakenMessage), users)
    else Transition(Added(name), users + [User(NatToString(|users| + 1), name, [])])
  }

  /** `get_user_movies`: the movies of the first user with that id, or none at all. */
  function GetUserMovies(users: Users, uid: string): (r: seq<Movie>)
    ensures NoUser(users, uid) ==> r == []
    ensures forall i :: IsFirstUser(users, uid, i) ==> r == users[i].movies
  {
    match FindUser(users, uid)
    case None => []
    case Some(i) => users[i].movies
  }

  /** What the metadata lookup answered for the requested title. */
  datatype Enrichment =
    | Found(title: string, director: string, year: int, rating: real)
    | NotFound(error: string)

  /** The record `add_movie` stores for a successful lookup. */
  function NewMovie(e: Enrichment, id: int): (m: Movie)
    requires e.Found?
    ensures HasIntId(m) && IdOf(m) == id
    ensures m.Keys == {NameKey, DirectorKey, YearKey, RatingKey, IdKey}
  {
    map[NameKey := Str(e.title), DirectorKey := Str(e.director), YearKey := Int(e.year),
        RatingKey := Real(e.rating), IdKey := Int(id)]
  }

  /**
   `m` is the record built from lookup `e` and its id is one above the largest
   id in `ms`, or 1 when `ms` is empty: this is `max(ids, default=0) + 1`
   stated without computing a maximum.
   */
  predicate IsNewMovieFor(ms: seq<Movie>, e: Enrichment, m: Movie)
    requires MoviesHaveIds(ms)
    requires e.Found?
  {
    && HasIntId(m)
    && m == NewMovie(e, IdOf(m))
    && NoMovie(ms, IdOf(m))
    && (forall j :: 0 <= j < |ms| ==> IdOf(ms[j]) < IdOf(m))
    && (|ms| == 0 ==> IdOf(m) == 1)
    && (|ms| > 0 ==> exists j :: 0 <= j < |ms| && IdOf(ms[j]) == IdOf(m) - 1)
  }

  /**
   `add_movie`, with the lookup's answer as a parameter. A failed lookup passes
   its message through; otherwise the first user with that id gets the new
   movie appended, and an unknown user id is silently ignored. The reply is
   `None` (success) in both of the latter cases.
   */
  function AddMovie(users: Users, uid: string, e: Enrichment): (r: Transition<Option<string>>)
    requires WellFormed(users)
    ensures e.NotFound? ==> r.reply == Some(e.error) && r.state == users
    ensures e.Found? ==> r.reply == None
    ensures NoUser(users, uid) ==> r.state == users
    ensures WellFormed(r.state)
    ensures forall i :: e.Found? && IsFirstUser(users, uid, i) ==>
      && |r.state| == |users|
      && (forall k :: 0 <= k < |users| && k != i ==> r.state[k] == users[k])
      && r.state[i].userId == users[i].userId
      && r.state[i].name == users[i].name
      && |r.state[i].movies| == |users[i].movies| + 1
      && r.state[i].movies[..|users[i].movies|] == users[i].movies
      && IsNewMovieFor(users[i].movies, e, r.state[i].movies[|users[i].movies|])
  {
    match e
    case NotFound(msg) => Transition(Some(msg), users)
    case Found(_, _, _, _) =>
      match FindUser(users, uid)
      case None => Transition(None, users)
      case Some(i) =>
        var ms := users[i].movies;
        var added := ms + [NewMovie(e, NextId(ms))];
        assert added[..|ms|] == ms;
        Transition(None, users[i := users[i].(movies := added)])
  }

  /** `get_movie`: the first movie with that id among the users with that id. */
  function GetMovie(users: Users, uid: string, mid: int): (r: Option<Movie>)
    requires WellFormed(users)
    ensures r.None? <==> forall i, j :: !Located(users, uid, mid, i, j)
    ensures forall i, j :: FirstLocated(users, uid, mid, i, j) ==> r == Some(users[i].movies[j])
  {
    match Locate(users, uid, mid)
    case None => None
    case Some(p) =>
      FirstLocatedUnique(users, uid, mid, p.user, p.movie);
      Some(users[p.user].movies[p.movie])
  }

  /** The nested scan has at most one first hit. */
  lemma FirstLocatedUnique(users: Users, uid: string, mid: int, i: int, j: int)
    requires WellFormed(users)
    requires FirstLocated(users, uid, mid, i, j)
    ensures forall i', j' :: FirstLocated(users, uid, mid, i', j') ==> i' == i && j' == j
  {
  }

  /** Python's `movie.update(updated)`: keys of the update win, all other keys stay. */
  function Merge(movie: Movie, upd: Movie): (m: Movie)
    ensures m.Keys == movie.Keys + upd.Keys
    ensures forall key :: key in upd ==> m[key] == upd[key]
    ensures forall key :: key in movie && key !in upd ==> m[key] == movie[key]
  {
    movie + upd
  }

  /** The user list with the movie at `p` merged with `upd`. */
  function MergeAt(users: Users, p: Position, upd: Movie): Users
    requires p.user < |users| && p.movie < |users[p.user].movies|
  {
    var u := users[p.user];
    users[p.user := u.(movies := u.movies[p.movie := Merge(u.movies[p.movie], upd)])]
  }

  /**
   `update_movie`: merge `upd` into the first movie the nested scan finds and
   write; when nothing is found nothing is written.
   */
  function UpdateMovie(users: Users, uid: string, mid: int, upd: Movie): (r: Users)
    requires WellFormed(users)
    ensures (forall i, j :: !Located(users, uid, mid, i, j)) ==> r == users
    ensures |r| == |users|
    ensures forall k :: 0 <= k < |r| ==>
      r[k].userId == users[k].userId && r[k].name == users[k].name
      && |r[k].movies| == |users[k].movies|
  {
    match Locate(users, uid, mid)
    case None => users
    case Some(p) => MergeAt(users, p, upd)
  }

  /** `[movie for movie in movies if int(movie['id']) != movie_id]`. */
  function RemoveId(ms: seq<Movie>, mid: int): (r: seq<Movie>)
    requires MoviesHaveIds(ms)
    ensures MoviesHaveIds(r)
    ensures NoMovie(r, mid)
    ensures forall m :: m in r <==> m in ms && IdOf(m) != mid
    ensures |r| <= |ms|
    decreases |ms|
  {
    if |ms| == 0 then []
    else
      var rest := RemoveId(ms[1..], mid);
      if IdOf(ms[0]) == mid then rest else [ms[0]] + rest
  }

  /**
   `delete_movie`: the first user with that id keeps exactly its movies whose
   id differs; an unknown user id leaves everything as it was.
   */
  function DeleteMovie(users: Users, uid: string, mid: int): (r: Users)
    requires WellFormed(users)
    ensures NoUser(users, uid) ==> r == users
    ensures |r| == |users|
    ensures WellFormed(r)
    ensures forall i :: IsFirstUser(users, uid, i) ==>
      && (forall k :: 0 <= k < |users| && k != i ==> r[k] == users[k])
      && r[i].userId == users[i].userId
      && r[i].name == users[i].name
      && NoMovie(r[i].movies, mid)
      && (forall m :: m in r[i].movies <==> m in users[i].movies && IdOf(m) != mid)
  {
    match FindUser(users, uid)
    case None => users
    case Some(i) => users[i := users[i].(movies := RemoveId(users[i].movies, mid))]
  }
}
