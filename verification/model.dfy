/**
 * The catalogue's records (internal/model/movie.go): a movie, its director,
 * the request that carries client data into create and update, and the four
 * records the package-level collection starts with.
 */
module Model {
  import opened Strings
  import opened Encoding

  /** Stands for a Go pointer that may be nil. */
  datatype Option<T> = None | Some(value: T)

  /** Embedded by value: a stored movie's director is never shared. */
  datatype Director = Director(firstname: string, lastname: string)

  datatype Movie = Movie(id: string, imdbId: string, title: string, director: Director)

  /** Client data for create and update. It has no id field, and its
      director is nil when the client sent none. */
  datatype MovieRequest = MovieRequest(title: string, imdbId: string, director: Option<Director>)

  /** The value the package-level collection is initialised with. */
  function Seed(): (movies: seq<Movie>)
    ensures |movies| == 4
    ensures movies[0] == Movie("52420926a8d403", "tt1375666", "Inception", Director("Christopher", "Nolan"))
  {
    [
      Movie("52420926a8d403", "tt1375666", "Inception", Director("Christopher", "Nolan")),
      Movie("3fd26c41ae733f", "tt0133093", "The Matrix", Director("Lana", "Wachowski")),
      Movie("9074185900698c", "tt0468569", "The Dark Knight", Director("Christopher", "Nolan")),
      Movie("e2fccb318304cf", "tt1285016", "The Social Network", Director("David", "Fincher"))
    ]
  }

  /** Two records describe the same film when title, director first name
      and director last name are all equal; id and imdb id play no part. */
  predicate SameTriple(a: Movie, b: Movie) {
    a.title == b.title && a.director == b.director
  }

  /** No two stored records share (title, firstname, lastname). */
  predicate DistinctTriples(movies: seq<Movie>) {
    forall i, j :: 0 <= i < j < |movies| ==> !SameTriple(movies[i], movies[j])
  }

  /** Every stored field the validator checks, and the id, is non-blank. */
  predicate FieldsPresent(m: Movie) {
    !IsBlank(m.id) && !IsBlank(m.imdbId) && !IsBlank(m.title)
    && !IsBlank(m.director.firstname) && !IsBlank(m.director.lastname)
  }

  /** The invariant the catalogue operations keep. */
  predicate Consistent(movies: seq<Movie>) {
    DistinctTriples(movies) && forall i :: 0 <= i < |movies| ==> FieldsPresent(movies[i])
  }

  predicate DistinctIds(movies: seq<Movie>) {
    forall i, j :: 0 <= i < j < |movies| ==> movies[i].id != movies[j].id
  }

  function Titles(movies: seq<Movie>): (titles: seq<string>)
    ensures |titles| == |movies|
    ensures forall i :: 0 <= i < |movies| ==> titles[i] == movies[i].title
  {
    if movies == [] then [] else [movies[0].title] + Titles(movies[1..])
  }

  lemma SeedTitlesInOrder()
    ensures Titles(Seed()) == ["Inception", "The Matrix", "The Dark Knight", "The Social Network"]
  {
  }

  /** No two seed records share a triple; Inception and The Dark Knight
      share a director but not a title. */
  lemma SeedDistinctTriples()
    ensures DistinctTriples(Seed())
    ensures Seed()[0].director == Seed()[2].director && Seed()[0].title != Seed()[2].title
  {
    var s := Seed();
    // the fifth characters of the four titles are 'p', 'M', 'D' and 'S'
    assert s[0].title[4] == 'p' && s[1].title[4] == 'M' && s[2].title[4] == 'D' && s[3].title[4] == 'S';
    forall i, j | 0 <= i < j < |s| ensures !SameTriple(s[i], s[j]) {
      assert s[i].title[4] != s[j].title[4];
    }
  }

  /** Every seed field is non-blank. */
  lemma SeedFieldsPresent()
    ensures forall i :: 0 <= i < |Seed()| ==> FieldsPresent(Seed()[i])
  {
    var s := Seed();
    forall i | 0 <= i < |s| ensures FieldsPresent(s[i]) {
      assert !IsSpace(s[i].id[0]) && !IsSpace(s[i].imdbId[0]) && !IsSpace(s[i].title[0]);
      assert !IsSpace(s[i].director.firstname[0]) && !IsSpace(s[i].director.lastname[0]);
    }
  }

  /** The seed satisfies the catalogue invariant. */
  lemma SeedConsistent()
    ensures Consistent(Seed())
  {
    SeedDistinctTriples();
    SeedFieldsPresent();
  }

  /** The seed ids are pairwise distinct, 14 characters long and lower-case hex. */
  lemma SeedIdsWellFormed()
    ensures DistinctIds(Seed())
    ensures forall i :: 0 <= i < |Seed()| ==> |Seed()[i].id| == 14
    ensures forall i :: 0 <= i < |Seed()| ==> AllLowerHex(Seed()[i].id)
  {
    SeedIdsDistinct();
    SeedIdsLowerHex();
  }

  /** No two seed records share an id. */
  lemma SeedIdsDistinct()
    ensures DistinctIds(Seed())
  {
    var s := Seed();
    // the ids start with '5', '3', '9' and 'e'
    assert s[0].id[0] == '5' && s[1].id[0] == '3' && s[2].id[0] == '9' && s[3].id[0] == 'e';
    forall i, j | 0 <= i < j < |s| ensures s[i].id != s[j].id {
      assert s[i].id[0] != s[j].id[0];
    }
  }

  /** Every seed id is 14 lower-case hex digits. */
  lemma SeedIdsLowerHex()
    ensures forall i :: 0 <= i < |Seed()| ==> |Seed()[i].id| == 14 && AllLowerHex(Seed()[i].id)
  {
  }
}
