/**
 * The validation and lookup helpers of internal/service/movie.go. The Go
 * scans range over the package-level collection; here the value of that
 * collection at the time of the call is passed in as `movies`.
 */
module Service {
  import opened Strings
  import opened Model

  /** The request fields the validator checks, in the order it checks them. */
  datatype Field = Title | ImdbId | Firstname | Lastname

  function Rank(f: Field): nat {
    match f
    case Title => 0
    case ImdbId => 1
    case Firstname => 2
    case Lastname => 3
  }

  /** The message reported for a blank field. */
  function Message(f: Field): string {
    match f
    case Title => "Title cannot be empty"
    case ImdbId => "Imdb_id cannot be empty"
    case Firstname => "Firstname cannot be empty"
    case Lastname => "Lastname cannot be empty"
  }

  /** Field `f` of the request is blank; a name field of a request without
      director is not blank, it is missing. */
  predicate Blank(req: MovieRequest, f: Field) {
    match f
    case Title => IsBlank(req.title)
    case ImdbId => IsBlank(req.imdbId)
    case Firstname => req.director.Some? && IsBlank(req.director.value.firstname)
    case Lastname => req.director.Some? && IsBlank(req.director.value.lastname)
  }

  /** The validator reads the director only once title and imdb id have
      passed, so it needs a director only then (a nil one panics). */
  predicate CanValidate(req: MovieRequest) {
    !IsBlank(req.title) && !IsBlank(req.imdbId) ==> req.director.Some?
  }

  /** `f` is blank and every field checked before it is not. */
  predicate FirstBlank(req: MovieRequest, f: Field) {
    Blank(req, f) && forall g :: Rank(g) < Rank(f) ==> !Blank(req, g)
  }

  /** ExceptionHandler: (false, "") when no field is blank; otherwise true
      and the message of the first blank field in the order title, imdb id,
      first name, last name. */
  function ExceptionHandler(newMovie: MovieRequest): (r: (bool, string))
    requires CanValidate(newMovie)
    ensures r.0 <==> exists f :: Blank(newMovie, f)
    ensures !r.0 ==> r.1 == "" && newMovie.director.Some?
    ensures r.0 ==> exists f :: FirstBlank(newMovie, f) && r.1 == Message(f)
  {
    if TrimSpace(newMovie.title) == "" then assert FirstBlank(newMovie, Title); (true, Message(Title))
    else if TrimSpace(newMovie.imdbId) == "" then assert FirstBlank(newMovie, ImdbId); (true, Message(ImdbId))
    else if TrimSpace(newMovie.director.value.firstname) == "" then assert FirstBlank(newMovie, Firstname); (true, Message(Firstname))
    else if TrimSpace(newMovie.director.value.lastname) == "" then assert FirstBlank(newMovie, Lastname); (true, Message(Lastname))
    else (false, "")
  }

  /** Each message names one field, so the reported message identifies the
      first blank field. */
  lemma MessagesDistinct(f: Field, g: Field)
    ensures Message(f) == Message(g) ==> f == g
  {
  }

  /** With both title and imdb id blank, the title is reported. */
  lemma TitleReportedFirst(newMovie: MovieRequest)
    requires IsBlank(newMovie.title) && IsBlank(newMovie.imdbId)
    ensures ExceptionHandler(newMovie) == (true, "Title cannot be empty")
  {
    var r := ExceptionHandler(newMovie);
    var f :| FirstBlank(newMovie, f) && r.1 == Message(f);
    assert FirstBlank(newMovie, Title);
    MessagesDistinct(f, Title);
  }

  /** Some stored record has exactly (untrimmed) this title, director first
      name and director last name. */
  predicate HasTriple(movies: seq<Movie>, title: string, firstname: string, lastname: string) {
    exists i :: 0 <= i < |movies| && movies[i].title == title
      && movies[i].director.firstname == firstname && movies[i].director.lastname == lastname
  }

  /** CheckIfMovieExists: a linear scan for a record with the request's
      triple. It dereferences the director unconditionally. */
  method CheckIfMovieExists(movies: seq<Movie>, newMovie: MovieRequest) returns (found: bool)
    requires newMovie.director.Some?
    ensures found <==> HasTriple(movies, newMovie.title, newMovie.director.value.firstname,
                                 newMovie.director.value.lastname)
  {
    var movieName := newMovie.title;
    var movieDirFirstName := newMovie.director.value.firstname;
    var movieDirLastname := newMovie.director.value.lastname;
    for i := 0 to |movies|
      invariant !HasTriple(movies[..i], movieName, movieDirFirstName, movieDirLastname)
    {
      var movie := movies[i];
      if movie.title == movieName && movie.director.firstname == movieDirFirstName
         && movie.director.lastname == movieDirLastname {
        assert movies[i] == movie;
        return true;
      }
      assert movies[..i + 1][..i] == movies[..i];
    }
    assert movies[..|movies|] == movies;
    return false;
  }

  predicate HasId(movies: seq<Movie>, id: string) {
    exists i :: 0 <= i < |movies| && movies[i].id == id
  }

  /** The position of the first record with this id. */
  function FirstIndex(movies: seq<Movie>, id: string): (i: nat)
    requires HasId(movies, id)
    ensures i < |movies| && movies[i].id == id
    ensures forall j :: 0 <= j < i ==> movies[j].id != id
  {
    if movies[0].id == id then 0
    else
      var k :| 0 <= k < |movies| && movies[k].id == id;
      assert movies[1..][k - 1].id == id;
      1 + FirstIndex(movies[1..], id)
  }

  /** The first match is the only index with the id and no earlier match. */
  lemma FirstIndexUnique(movies: seq<Movie>, id: string, i: nat)
    requires i < |movies| && movies[i].id == id
    requires forall j :: 0 <= j < i ==> movies[j].id != id
    ensures HasId(movies, id) && FirstIndex(movies, id) == i
  {
  }

  /** CheckIfIdExists: (true, i) for the first record whose id is `id`,
      otherwise (false, 0). */
  method CheckIfIdExists(movies: seq<Movie>, id: string) returns (found: bool, idx: int)
    ensures found <==> HasId(movies, id)
    ensures found ==> 0 <= idx < |movies| && movies[idx].id == id
                      && forall j :: 0 <= j < idx ==> movies[j].id != id
    ensures !found ==> idx == 0
  {
    for i := 0 to |movies|
      invariant forall j :: 0 <= j < i ==> movies[j].id != id
    {
      if movies[i].id == id {
        return true, i;
      }
    }
    return false, 0;
  }
}
