# Movie store: a verified model of the JSON document store

This project models the persistence layer of a small movie-tracking web
application. The store keeps one JSON document `{"users": [...]}`; each user
has a `user_id`, a `name` and an ordered list of movies, and each movie is a
JSON object with an integer `id` and free-form fields (`name`, `director`,
`year`, `rating`, and whatever an update adds).

Every public operation of `JSONDataManager` loads the whole user list, and all
but `list_all_users` scan it linearly. `add_movie` is the one exception to the
load: after a failed lookup it returns before loading anything. The reads
(`list_all_users`, `get_user_movies`, `get_movie`) never write. The four
mutating operations write the whole list back, each under its own condition:
- `delete_movie` always writes.
- `add_movie` writes whenever the lookup found the title.
- `update_movie` writes only when it finds the movie.
- `add_user` writes only when the name is free.

Loading and writing are the identity here. So each operation is a pure
function from the user list before the call to its reply and, for a mutation,
the list it writes:

- `MovieStore.AddUser` (`add_user`): rejects a name already held; otherwise appends
  a user whose id is `str(count + 1)` and who has no movies.
- `MovieStore.GetUserMovies` (`get_user_movies`): the movies of the first user with
  that id, `[]` for an unknown id.
- `MovieStore.AddMovie` (`add_movie`): takes the metadata lookup's answer as a
  parameter. A failed lookup returns its message and writes nothing. Otherwise the
  first user with that id gets the new movie appended, with id
  `max(ids, default=0) + 1`.
- `MovieStore.GetMovie` / `MovieStore.UpdateMovie` (`get_movie` / `update_movie`):
  a nested scan that, unlike the other operations, moves on to later users with
  the same id when the first one lacks the movie. An update is a shallow merge
  (`movie.update(upd)`, map override `m + upd`).
- `MovieStore.DeleteMovie` (`delete_movie`): the first user with that id keeps
  exactly its movies whose id differs.
- `MovieStore.ListAllUsers` (`list_all_users`): the list as loaded.

Movies are `map<string, Value>`, so the merge semantics are exact. The edit form
of the web layer sends the title under the key `title` while stored movies use
`name`; the merge therefore adds `title` beside an unchanged `name`
(`Scenario.EditFormAddsTitleBesideName`).

Id reuse after deletion is conditional. Deleting a user's highest id `t` and
then adding a movie gives the new movie id `t` exactly when `t` is 1 or the id
`t - 1` is still present. The top id is reused whenever `t - 1` survives (ids
`[1, 3, 4]` reuse 4) and never after a gap directly below it (`[1, 5]` gives
2). `StoreProperties.DeleteTopThenAdd` states this condition.

The operations that read movie ids require `WellFormed`: every stored movie has
an integer `id`. This holds of every document the store itself writes.
`add_movie` assigns `max(ids, default=0) + 1`, which is an integer, and no
other operation changes an id unless an update supplies an `id` key; the edit
form never does. An unknown user
or movie id is never an error: reads answer "absent" and writes are no-ops.
`add_movie` even replies success for an unknown user.

Files: `wrappers.dfy` (Option), `json.dfy` (values and movie ids),
`decimal.dfy` (`str` for user ids, and the parse that proves it injective), `store.dfy` (the operations),
`properties.dfy` (invariants and multi-call lemmas), `reply.dfy` (the shape of
`add_user`'s Python return value), `scenario.dfy` (a worked session).

## Model

| member | source | states |
|---|---|---|
| MovieStore.NameInUse | DataManager/json_data_manager.py:49-51 | The duplicate scan answers true exactly when some user already has the name. |
| MovieStore.AddUser | DataManager/json_data_manager.py:47-64 | A taken name yields the "already exists" message and an unchanged list. Otherwise it replies with the name and appends one user `User(str(n+1), name, [])` after the n earlier users, which are unchanged. |
| MovieStore.FindUser | DataManager/json_data_manager.py:107-108 | The user scan returns the first index whose `user_id` matches, or none exactly when no user matches. |
| MovieStore.GetUserMovies | DataManager/json_data_manager.py:74-78 | Returns the movies of the first user with the id, and `[]` when no user has it. |
| MovieStore.MaxId | DataManager/json_data_manager.py:109-110 | `max(ids, default=0)`: bounds every id from above, is attained by some movie when the list is non-empty, and is 0 for an empty list. |
| MovieStore.NextId | DataManager/json_data_manager.py:109-112 | The assigned id belongs to no movie already in the list. |
| MovieStore.NewMovie | DataManager/json_data_manager.py:96-112 | The stored record has exactly the keys name, director, year, rating and id, and carries the assigned id. |
| MovieStore.AddMovie | DataManager/json_data_manager.py:95-119 | A failed lookup returns its message verbatim and changes nothing. A found title replies success. An unknown user changes nothing. Otherwise only the first matching user changes: its earlier movies keep their order and one movie built from the lookup is appended, with an id above every existing one, equal to 1 for an empty list and otherwise one past an existing id. Well-formedness is preserved. |
| MovieStore.FindMovie | DataManager/json_data_manager.py:134-135 | The movie scan returns the first index with the id, or none exactly when no movie has it. |
| MovieStore.Locate | DataManager/json_data_manager.py:132-136 | The nested scan returns the first (user, movie) hit in scan order across all users with the id, or none when no such user holds the movie. |
| MovieStore.FirstLocatedUnique | DataManager/json_data_manager.py:132-136 | The nested scan has at most one first hit. |
| MovieStore.GetMovie | DataManager/json_data_manager.py:129-137 | The result is absent exactly when no user with the id holds a movie with that id. Otherwise it is the first such movie in scan order. |
| MovieStore.Merge | DataManager/json_data_manager.py:153 | The merged record has the union of the keys. Keys of the update take the update's values; all other keys keep the old values. |
| MovieStore.UpdateMovie | DataManager/json_data_manager.py:146-157 | No match leaves the list unchanged. No call changes the number of users, any user id or name, or any list length. |
| MovieStore.RemoveId | DataManager/json_data_manager.py:170-171 | The filtered list holds exactly the movies whose id differs from the target, and none with the target id. |
| MovieStore.DeleteMovie | DataManager/json_data_manager.py:165-173 | An unknown user leaves the list unchanged. Otherwise only the first matching user changes: it keeps its id and name and holds exactly its movies with a different id. |
| StoreProperties.RemoveIdAppend | DataManager/json_data_manager.py:170-171 | Filtering distributes over concatenation, so kept movies stay in their original order. |
| StoreProperties.RemoveAbsentId | DataManager/json_data_manager.py:170-171 | Filtering out an id no movie has returns the list unchanged. |
| StoreProperties.RemoveIdKeepsDistinct | DataManager/json_data_manager.py:170-171 | Filtering a list with pairwise distinct ids leaves them pairwise distinct. |
| StoreProperties.RemoveIdKeepsIdsSound | DataManager/json_data_manager.py:170-171 | Filtering keeps ids pairwise distinct and positive. |
| StoreProperties.DeleteAbsentMovie | DataManager/json_data_manager.py:168-173 | Deleting a movie id the first matching user does not hold leaves the whole list unchanged. |
| StoreProperties.DeleteMovieIdempotent | DataManager/json_data_manager.py:165-173 | Deleting the same movie twice writes the same list as deleting it once. |
| StoreProperties.DeleteMovieKeepsIdsSound | DataManager/json_data_manager.py:168-172 | Deletion preserves the invariant that each user's movie ids are positive and pairwise distinct. |
| StoreProperties.AddUserKeepsIdsSound | DataManager/json_data_manager.py:53-62 | Adding a user preserves the invariant that each user's movie ids are positive and pairwise distinct. |
| StoreProperties.AddMovieKeepsIdsSound | DataManager/json_data_manager.py:107-114 | Adding a movie preserves the invariant that each user's movie ids are positive and pairwise distinct. |
| StoreProperties.NextIdAfterTopRemoved | DataManager/json_data_manager.py:109-112 | Once the top id t is filtered out, the next id is at most t. It equals t exactly when t is 1 or t-1 is present. |
| StoreProperties.DeleteTopThenAdd | DataManager/json_data_manager.py:109-113 | Deleting a user's top id t and then adding a movie appends it after the kept movies with an id at most t. The id equals t exactly when t is 1 or t-1 was present, so ids are reused and not monotonic. |
| StoreProperties.UpdateMovieMerges | DataManager/json_data_manager.py:149-156 | The first located movie becomes the old record merged with the update. Every other movie of that user and every other user is unchanged. |
| StoreProperties.UpdateWithoutIdKeepsIds | DataManager/json_data_manager.py:153 | An update without an `id` key keeps the document well-formed and every movie's id unchanged. |
| StoreProperties.UpdateMovieKeepsIdsSound | DataManager/json_data_manager.py:149-156 | An update without an `id` key preserves positive, per-user distinct ids. |
| StoreProperties.GetAfterUpdate | DataManager/json_data_manager.py:129-156 | After an update without an `id` key, reading the movie back returns the merged record. |
| StoreProperties.AddUserKeepsDirectory | DataManager/json_data_manager.py:49-61 | If user i has id `str(i+1)` and names are distinct, both facts still hold after `add_user`. |
| StoreProperties.AddMovieKeepsDirectory | DataManager/json_data_manager.py:105-115 | Adding a movie never changes the number of users, a user id or a name. |
| StoreProperties.UpdateMovieKeepsDirectory | DataManager/json_data_manager.py:146-157 | Updating a movie never changes the number of users, a user id or a name. |
| StoreProperties.DeleteMovieKeepsDirectory | DataManager/json_data_manager.py:165-173 | Deleting a movie never changes the number of users, a user id or a name. |
| StoreProperties.SequentialIdsAreUnique | DataManager/json_data_manager.py:53 | Ids handed out as `str(i+1)` are pairwise distinct. |
| Decimal.NatToString | DataManager/json_data_manager.py:53 | `str(n)` is a non-empty digit string with no leading zero for n > 0. |
| Decimal.ParseRendered | DataManager/json_data_manager.py:53 | Parsing `str(n)` gives back n. |
| Decimal.RenderInjective | DataManager/json_data_manager.py:53 | `str(a) == str(b)` exactly when a == b. |
| AddUserReply.AddUserReplyAsWritten | DataManager/json_data_manager.py:51-64 | What the caller's `error_message, user_name = ...` gets from each return statement. A successful call unpacks to `(None, name)`. A rejected name returns the bare message, which unpacks only if the message has exactly two characters. |
| AddUserReply.DuplicateNameReplyDoesNotUnpack | DataManager/json_data_manager.py:49-51 | As written, rejecting a taken name returns a value the caller's two-name unpacking cannot take apart. |
| AddUserReply.AddUserReplyUnpacks | DataManager/json_data_manager.py:49-64 | The corrected reply always unpacks. Its first item is `None` exactly when the user was added, and is otherwise the message; on success the second item is the name. |
| Scenario.CreateAlice | DataManager/json_data_manager.py:47-64 | The first user created in an empty document is `User("1", "Alice", [])`, and the reply names her. |
| Scenario.AddInception | DataManager/json_data_manager.py:105-115 | Alice's first movie gets id 1 and the lookup's fields, and `get_user_movies("1")` then lists exactly that movie. |
| Scenario.RerateInception | DataManager/json_data_manager.py:129-156 | Updating the rating to 9.0 yields the merged record. Reading it back shows rating 9.0 with director and name unchanged. |
| Scenario.DeleteInception | DataManager/json_data_manager.py:165-173 | Deleting the only movie restores the document to Alice with no movies. |
| Scenario.EditFormAddsTitleBesideName | app.py:171-177 | The edit form's `title` key is added beside the stored `name`, which is unchanged, while director, year and rating take the form's values and the id is kept. |

## Left out

- File I/O and JSON (de)serialisation (`_load_data`, `_write_data`, DataManager/json_data_manager.py:14-29): the store is the in-memory user list and each call is one transition. Key order inside JSON objects is not modelled, since movies are maps.
- The HTTP request to the movie-metadata service and the parsing of its `Year` and `imdbRating` fields, including the `'N/A'` to 0.0 default (DataManager/json_data_manager.py:90-103): network and float parsing. The lookup's outcome is a parameter (`Enrichment`), and the rating is a `real`.
- The `str()`/`int()` coercions of user and movie ids at the start of each operation: ids are taken as already normalised, a string user id and an integer movie id. `get_user_movies` does no coercion in the source either.
- Documents with a movie whose `id` is missing or not an integer, which the store never writes itself. On such input the source behaves in ways the model does not follow. A missing `id` raises `KeyError` when a matching user's movies are scanned. `get_movie` and `update_movie` treat a string id such as `"1"` as different from `1`. `delete_movie` coerces with `int()`, so `"3"` counts as 3 and `2.7` as 2. `add_movie` takes `max + 1` over float ids. The model requires `WellFormed` instead.
- Python's equality between `1` and `1.0` or `True`: well-formed ids are integers, so the id comparisons never mix types.
- JSON arrays and nested objects as movie field values: `Json.Value` has only null, booleans, integers, reals and strings, which is all the store and the web layer ever put in a movie.
- MovieStore.ListAllUsers: it is the identity on the loaded list, so it has no contract worth stating.
- The abstract interface class (DataManager/data_manager_interface.py): it has no behaviour.
- All of app.py except the two spots used above: routes, templates, redirects, the 404 handler and `fetch_movie_info` are web glue.
- Concurrency: two interleaved read-modify-write cycles can lose an update. The model is sequential.

## Findings

| source | as written | input that shows it | evidently intended | confidence | as-written member | corrected member |
|---|---|---|---|---|---|---|
| DataManager/json_data_manager.py:51 | a taken name returns the bare message string, while success returns `(None, name)`; app.py:108 unpacks the result into two names | `add_user` with a name already stored: the 35-character message cannot be unpacked into two names, so the caller raises instead of showing the error | always return a pair `(error or None, name or None)` | high (not executed) | AddUserReply.DuplicateNameReplyDoesNotUnpack | AddUserReply.AddUserReplyUnpacks |
