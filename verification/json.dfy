/**
 The JSON values a movie record can hold, and the movie record itself.

 A movie is a JSON object, so it is modelled as a map from field names to
 values: the store merges partial updates into it key by key, and keys a
 caller adds (for instance a `title` beside the stored `name`) simply appear
 beside the existing ones.
 */
module Json {

  /** The JSON scalars a movie field can take once the document is loaded. */
  datatype Value = Null | Bool(b: bool) | Int(i: int) | Real(r: real) | Str(s: string)

  type Movie = map<string, Value>

  const IdKey: string := "id"
  const NameKey: string := "name"
  const DirectorKey: string := "director"
  const YearKey: string := "year"
  const RatingKey: string := "rating"

  /** The stored format gives every movie an integer `id`; the store reads it unguarded. */
  predicate HasIntId(m: Movie) {
    IdKey in m && m[IdKey].Int?
  }

  function IdOf(m: Movie): int
    requires HasIntId(m)
  {
    m[IdKey].i
  }
}
