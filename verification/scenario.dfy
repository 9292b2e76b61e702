/**
 A worked session: Alice (id "1") adds "Inception" through a lookup that finds
 it, rates it 9.0, then deletes it, which brings the document back to where
 it started.
 */
module Scenario {
  import opened Wrappers
  import opened Json
  import opened Decimal
  import opened MovieStore

  const Inception: Enrichment := Found("Inception", "Christopher Nolan", 2010, 8.8)
  const Rerating: Movie := map[RatingKey := Real(9.0)]

  const AliceOnly: Users := [User("1", "Alice", [])]
  const WithInception: Users := [User("1", "Alice", [NewMovie(Inception, 1)])]
  const Rerated: Users := [User("1", "Alice", [Merge(NewMovie(Inception, 1), Rerating)])]

  /** Creating the first user in an empty document gives it id "1". */
  lemma CreateAlice()
    ensures AddUser([], "Alice") == Transition(Added("Alice"), AliceOnly)
  {
    assert NatToString(1) == "1";
  }

  /** The first movie of a user gets id 1 and is what the user's movie list then shows. */
  lemma AddInception()
    ensures AddMovie(AliceOnly, "1", Inception) == Transition(None, WithInception)
    ensures GetUserMovies(WithInception, "1") == [NewMovie(Inception, 1)]
  {
    assert IsFirstUser(AliceOnly, "1", 0);
    assert IsFirstUser(WithInception, "1", 0);
  }

  /** Re-rating changes the rating and keeps the director and name. */
  lemma RerateInception()
    ensures WellFormed(WithInception) && WellFormed(Rerated)
    ensures UpdateMovie(WithInception, "1", 1, Rerating) == Rerated
    ensures GetMovie(Rerated, "1", 1).Some?
    ensures GetMovie(Rerated, "1", 1).value[RatingKey] == Real(9.0)
    ensures GetMovie(Rerated, "1", 1).value[DirectorKey] == Str("Christopher Nolan")
    ensures GetMovie(Rerated, "1", 1).value[NameKey] == Str("Inception")
  {
    assert FirstLocated(WithInception, "1", 1, 0, 0);
    assert FindMovie(WithInception[0].movies, 1) == Some(0);
    assert Locate(WithInception, "1", 1) == Some(Position(0, 0));
    var merged := Merge(NewMovie(Inception, 1), Rerating);
    assert WithInception[0].movies[0 := merged] == [merged];
    assert WithInception[0 := User("1", "Alice", [merged])] == Rerated;
    assert FirstLocated(Rerated, "1", 1, 0, 0);
  }

  /** Deleting the only movie leaves Alice with none, as before the session. */
  lemma DeleteInception()
    ensures WellFormed(Rerated)
    ensures DeleteMovie(Rerated, "1", 1) == AliceOnly
    ensures GetUserMovies(AliceOnly, "1") == []
  {
    assert IsFirstUser(Rerated, "1", 0);
  }

  /**
   The edit form sends its title under `title`, not `name`: merging that
   record into a stored movie adds a `title` field beside the untouched
   `name`, while director, year and rating take the form's values.
   */
  lemma EditFormAddsTitleBesideName(title: string, director: string, year: int, rating: real)
    ensures var stored := NewMovie(Inception, 1);
      var edited := Merge(stored, map["title" := Str(title), DirectorKey := Str(director),
                                      YearKey := Int(year), RatingKey := Real(rating)]);
      && edited[NameKey] == Str("Inception")
      && edited["title"] == Str(title)
      && edited[DirectorKey] == Str(director)
      && edited[YearKey] == Int(year)
      && edited[RatingKey] == Real(rating)
      && edited[IdKey] == Int(1)
      && edited.Keys == stored.Keys + {"title"}
  {
  }
}
