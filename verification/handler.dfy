/**
 * The catalogue operations that internal/handler/movie.go performs inline in
 * its HTTP handlers, with the transport stripped away: each error response
 * becomes an `Err` value and the package-level slice becomes the `movies`
 * field of a `Store`.
 *
 * Each operation is given twice: as a function from the old collection to
 * the result and the new collection (used by the lemmas), and as a method
 * of `Store` that performs the handler's steps and is proved to agree with
 * that function.
 */
module Handler {
  import opened Strings
  import opened Model
  import opened Service
  import opened Ident

  /** The handlers' error responses: "Movie not found", "Movie with this
      Name already exists" and the validator's message. */
  datatype Error = NotFound | AlreadyExists | BadRequest(message: string)

  datatype Result<T> = Ok(value: T) | Err(error: Error)

  /** The record a successful create or update stores. */
  function FromRequest(id: string, req: MovieRequest): Movie
    requires req.director.Some?
  {
    Movie(id, req.imdbId, req.title, req.director.value)
  }

  predicate IsDuplicate(movies: seq<Movie>, req: MovieRequest)
    requires req.director.Some?
  {
    HasTriple(movies, req.title, req.director.value.firstname, req.director.value.lastname)
  }

  /** GetMovie: the first record with the id, or NotFound. */
  function GetOutcome(movies: seq<Movie>, id: string): Result<Movie> {
    if HasId(movies, id) then Ok(movies[FirstIndex(movies, id)]) else Err(NotFound)
  }

  /** CreateMovie: validate, then reject a duplicate, then append a record
      with a fresh id. */
  function CreateOutcome(movies: seq<Movie>, req: MovieRequest, sha256: string -> Digest, randomNum: nat)
    : (Result<Movie>, seq<Movie>)
    requires CanValidate(req) && randomNum < 100
  {
    var (invalid, message) := ExceptionHandler(req);
    if invalid then (Err(BadRequest(message)), movies)
    else if IsDuplicate(movies, req) then (Err(AlreadyExists), movies)
    else
      var m := FromRequest(GenerateID(sha256, req.title, randomNum), req);
      (Ok(m), movies + [m])
  }

  /** UpdateMovie: look the id up, then reject a duplicate (the scan covers
      the record being updated), then validate, then overwrite the record in
      place keeping its id. A missing director panics once the id is found. */
  function UpdateOutcome(movies: seq<Movie>, id: string, req: MovieRequest): (Result<Movie>, seq<Movie>)
    requires HasId(movies, id) ==> req.director.Some?
  {
    if !HasId(movies, id) then (Err(NotFound), movies)
    else if IsDuplicate(movies, req) then (Err(AlreadyExists), movies)
    else
      var (invalid, message) := ExceptionHandler(req);
      if invalid then (Err(BadRequest(message)), movies)
      else
        var m := FromRequest(id, req);
        (Ok(m), movies[FirstIndex(movies, id) := m])
  }

  /** DeleteMovie: splice out the first record with the id and report its
      title, or NotFound. */
  function DeleteOutcome(movies: seq<Movie>, id: string): (Result<string>, seq<Movie>) {
    if !HasId(movies, id) then (Err(NotFound), movies)
    else
      var idx := FirstIndex(movies, id);
      (Ok(movies[idx].title), movies[..idx] + movies[idx + 1..])
  }

  /** The package-level collection and the handlers that act on it. */
  class Store {
    var movies: seq<Movie>

    constructor (seed: seq<Movie>)
      ensures movies == seed
    {
      movies := seed;
    }

    /** GetMovies: the whole collection, in order. */
    method GetMovies() returns (all: seq<Movie>)
      ensures all == movies
    {
      all := movies;
    }

    method GetMovie(id: string) returns (res: Result<Movie>)
      ensures res == GetOutcome(movies, id)
      ensures res.Ok? ==> res.value.id == id && res.value in movies
    {
      var check, idx := CheckIfIdExists(movies, id);
      if !check {
        return Err(NotFound);
      }
      FirstIndexUnique(movies, id, idx);
      return Ok(movies[idx]);
    }

    method DeleteMovie(id: string) returns (res: Result<string>)
      modifies this
      ensures (res, movies) == DeleteOutcome(old(movies), id)
      ensures Consistent(old(movies)) ==> Consistent(movies)
    {
      DeletePreservesConsistency(movies, id);
      var check, idx := CheckIfIdExists(movies, id);
      if !check {
        return Err(NotFound);
      }
      FirstIndexUnique(movies, id, idx);
      var movieName := movies[idx].title;
      movies := movies[..idx] + movies[idx + 1..];
      return Ok(movieName);
    }

    method CreateMovie(movieInfo: MovieRequest, sha256: string -> Digest, randomNum: nat)
      returns (res: Result<Movie>)
      requires CanValidate(movieInfo) && randomNum < 100
      modifies this
      ensures (res, movies) == CreateOutcome(old(movies), movieInfo, sha256, randomNum)
      ensures Consistent(old(movies)) ==> Consistent(movies)
    {
      CreatePreservesConsistency(movies, movieInfo, sha256, randomNum);
      var (invalid, message) := ExceptionHandler(movieInfo);
      if invalid {
        return Err(BadRequest(message));
      }
      var exists_ := CheckIfMovieExists(movies, movieInfo);
      if exists_ {
        return Err(AlreadyExists);
      }
      var id := GenerateID(sha256, movieInfo.title, randomNum);
      var newMovie := Movie(id, movieInfo.imdbId, movieInfo.title, movieInfo.director.value);
      movies := movies + [newMovie];
      return Ok(newMovie);
    }

    method UpdateMovie(id: string, movieInfo: MovieRequest) returns (res: Result<Movie>)
      requires HasId(movies, id) ==> movieInfo.director.Some?
      modifies this
      ensures (res, movies) == UpdateOutcome(old(movies), id, movieInfo)
      ensures Consistent(old(movies)) ==> Consistent(movies)
    {
      UpdatePreservesConsistency(movies, id, movieInfo);
      var check, idx := CheckIfIdExists(movies, id);
      if !check {
        return Err(NotFound);
      }
      FirstIndexUnique(movies, id, idx);
      var exists_ := CheckIfMovieExists(movies, movieInfo);
      if exists_ {
        return Err(AlreadyExists);
      }
      var (invalid, message) := ExceptionHandler(movieInfo);
      if invalid {
        return Err(BadRequest(message));
      }
      var updated := Movie(id, movieInfo.imdbId, movieInfo.title, movieInfo.director.value);
      movies := movies[idx := updated];
      return Ok(updated);
    }
  }

  // ---------------------------------------------------------------------
  // Create

  /** A successful create appends exactly one record at the end: the
      generated id, and title, imdb id and director from the request. Any
      failure leaves the collection as it was. */
  lemma CreateAppends(movies: seq<Movie>, req: MovieRequest, sha256: string -> Digest, randomNum: nat)
    requires CanValidate(req) && randomNum < 100
    ensures var (res, after) := CreateOutcome(movies, req, sha256, randomNum);
            && (res.Err? ==> after == movies)
            && (res.Ok? ==> && req.director.Some?
                            && after == movies + [res.value]
                            && res.value.id == GenerateID(sha256, req.title, randomNum)
                            && res.value.title == req.title && res.value.imdbId == req.imdbId
                            && res.value.director == req.director.value)
  {
    var (invalid, message) := ExceptionHandler(req);
    if !invalid && !IsDuplicate(movies, req) {
      var m := FromRequest(GenerateID(sha256, req.title, randomNum), req);
      assert CreateOutcome(movies, req, sha256, randomNum) == (Ok(m), movies + [m]);
    }
  }

  /** Create validates before it looks for a duplicate: a blank field is
      reported even when the triple is already stored, and a duplicate is
      reported only for a request that passes validation. */
  lemma CreateValidatesFirst(movies: seq<Movie>, req: MovieRequest, sha256: string -> Digest, randomNum: nat)
    requires CanValidate(req) && randomNum < 100
    ensures ExceptionHandler(req).0 ==>
              CreateOutcome(movies, req, sha256, randomNum).0 == Err(BadRequest(ExceptionHandler(req).1))
    ensures !ExceptionHandler(req).0 ==>
              (CreateOutcome(movies, req, sha256, randomNum).0 == Err(AlreadyExists) <==> IsDuplicate(movies, req))
    ensures !ExceptionHandler(req).0 && !IsDuplicate(movies, req) ==>
              CreateOutcome(movies, req, sha256, randomNum).0.Ok?
  {
  }

  /** Creating "Inception" by Christopher Nolan against the seed is a duplicate. */
  lemma SeedRejectsInception(imdbId: string, sha256: string -> Digest, randomNum: nat)
    requires !IsBlank(imdbId) && randomNum < 100
    ensures var req := MovieRequest("Inception", imdbId, Some(Director("Christopher", "Nolan")));
            CreateOutcome(Seed(), req, sha256, randomNum) == (Err(AlreadyExists), Seed())
  {
    var req := MovieRequest("Inception", imdbId, Some(Director("Christopher", "Nolan")));
    assert !IsSpace(req.title[0]);
    assert !IsSpace(req.director.value.firstname[0]) && !IsSpace(req.director.value.lastname[0]);
    assert forall f :: !Blank(req, f);
    assert Seed()[0].title == req.title;
  }

  /** After a successful create, looking up the new id finds the new record,
      provided no older record happens to carry the same id (ids are random
      and never checked for collisions). */
  lemma CreateThenGet(movies: seq<Movie>, req: MovieRequest, sha256: string -> Digest, randomNum: nat)
    requires CanValidate(req) && randomNum < 100
    ensures var (res, after) := CreateOutcome(movies, req, sha256, randomNum);
            res.Ok? && !HasId(movies, res.value.id) ==> GetOutcome(after, res.value.id) == Ok(res.value)
  {
    var (res, after) := CreateOutcome(movies, req, sha256, randomNum);
    if res.Ok? && !HasId(movies, res.value.id) {
      FirstIndexUnique(after, res.value.id, |movies|);
    }
  }

  lemma CreatePreservesConsistency(movies: seq<Movie>, req: MovieRequest, sha256: string -> Digest, randomNum: nat)
    requires CanValidate(req) && randomNum < 100
    ensures Consistent(movies) ==> Consistent(CreateOutcome(movies, req, sha256, randomNum).1)
  {
    var (res, after) := CreateOutcome(movies, req, sha256, randomNum);
    if Consistent(movies) && res.Ok? {
      RequestFieldsPresent(req, res.value);
      IdNotBlank(sha256, req.title, randomNum);
      AppendPreservesConsistency(movies, res.value);
    }
  }

  /** A record built from a request that passed validation has its
      validated fields non-blank. */
  lemma RequestFieldsPresent(req: MovieRequest, m: Movie)
    requires CanValidate(req) && !ExceptionHandler(req).0
    requires m.title == req.title && m.imdbId == req.imdbId && Some(m.director) == req.director
    ensures !IsBlank(m.title) && !IsBlank(m.imdbId)
    ensures !IsBlank(m.director.firstname) && !IsBlank(m.director.lastname)
  {
    assert !Blank(req, Title) && !Blank(req, ImdbId) && !Blank(req, Firstname) && !Blank(req, Lastname);
  }

  lemma AppendPreservesConsistency(movies: seq<Movie>, m: Movie)
    requires Consistent(movies) && FieldsPresent(m)
    requires !HasTriple(movies, m.title, m.director.firstname, m.director.lastname)
    ensures Consistent(movies + [m])
  {
    var after := movies + [m];
    forall i, j | 0 <= i < j < |after| ensures !SameTriple(after[i], after[j]) {
      assert after[i] == movies[i];
      if j == |movies| {
        assert !(movies[i].title == m.title && movies[i].director.firstname == m.director.firstname
                 && movies[i].director.lastname == m.director.lastname);
      } else {
        assert after[j] == movies[j];
      }
    }
  }

  // ---------------------------------------------------------------------
  // Update

  /** Update checks, in order: the id exists, the triple is new, the fields
      are non-blank. A duplicate is reported even for a request with blank
      fields; every failure leaves the collection as it was. */
  lemma UpdateChecksInOrder(movies: seq<Movie>, id: string, req: MovieRequest)
    requires HasId(movies, id) ==> req.director.Some?
    ensures var (res, after) := UpdateOutcome(movies, id, req);
            && (res.Err? ==> after == movies)
            && (!HasId(movies, id) ==> res == Err(NotFound))
            && (HasId(movies, id) && IsDuplicate(movies, req) ==> res == Err(AlreadyExists))
            && (HasId(movies, id) && !IsDuplicate(movies, req) && ExceptionHandler(req).0 ==>
                  res == Err(BadRequest(ExceptionHandler(req).1)))
            && (HasId(movies, id) && !IsDuplicate(movies, req) && !ExceptionHandler(req).0 ==> res.Ok?)
  {
  }

  /** Re-submitting a record's own title and director is rejected as a
      duplicate, because the scan includes the record itself. */
  lemma UpdateRejectsOwnTriple(movies: seq<Movie>, id: string, req: MovieRequest)
    requires HasId(movies, id)
    requires req.title == movies[FirstIndex(movies, id)].title
    requires req.director == Some(movies[FirstIndex(movies, id)].director)
    ensures UpdateOutcome(movies, id, req) == (Err(AlreadyExists), movies)
  {
    assert IsDuplicate(movies, req) by {
      var i := FirstIndex(movies, id);
      assert movies[i].director.firstname == req.director.value.firstname;
      assert movies[i].director.lastname == req.director.value.lastname;
    }
  }

  /** A successful update rewrites only the record found, keeps its id and
      the length of the collection, and takes every other field from the
      request. */
  lemma UpdateReplacesOne(movies: seq<Movie>, id: string, req: MovieRequest)
    requires HasId(movies, id) ==> req.director.Some?
    ensures var (res, after) := UpdateOutcome(movies, id, req);
            res.Ok? ==>
            var idx := FirstIndex(movies, id);
            && |after| == |movies|
            && after[idx] == res.value
            && res.value.id == movies[idx].id
            && res.value.title == req.title && res.value.imdbId == req.imdbId
            && Some(res.value.director) == req.director
            && forall j :: 0 <= j < |movies| && j != idx ==> after[j] == movies[j]
  {
  }

  lemma UpdatePreservesConsistency(movies: seq<Movie>, id: string, req: MovieRequest)
    requires HasId(movies, id) ==> req.director.Some?
    ensures Consistent(movies) ==> Consistent(UpdateOutcome(movies, id, req).1)
  {
    var (res, after) := UpdateOutcome(movies, id, req);
    if Consistent(movies) && res.Ok? {
      var idx := FirstIndex(movies, id);
      RequestFieldsPresent(req, res.value);
      assert FieldsPresent(movies[idx]);
      ReplacePreservesConsistency(movies, idx, res.value);
    }
  }

  lemma ReplacePreservesConsistency(movies: seq<Movie>, idx: nat, m: Movie)
    requires Consistent(movies) && idx < |movies| && FieldsPresent(m)
    requires !HasTriple(movies, m.title, m.director.firstname, m.director.lastname)
    ensures Consistent(movies[idx := m])
  {
    var after := movies[idx := m];
    forall i, j | 0 <= i < j < |after| ensures !SameTriple(after[i], after[j]) {
      if i == idx {
        assert after[j] == movies[j];
        assert !(movies[j].title == m.title && movies[j].director.firstname == m.director.firstname
                 && movies[j].director.lastname == m.director.lastname);
      } else if j == idx {
        assert after[i] == movies[i];
        assert !(movies[i].title == m.title && movies[i].director.firstname == m.director.firstname
                 && movies[i].director.lastname == m.director.lastname);
      } else {
        assert after[i] == movies[i] && after[j] == movies[j];
      }
    }
  }

  // ---------------------------------------------------------------------
  // Delete

  /** Deleting a found id removes exactly that record, keeps the others in
      their order and reports the removed title; an unknown id changes
      nothing. */
  lemma DeleteRemovesOne(movies: seq<Movie>, id: string)
    ensures var (res, after) := DeleteOutcome(movies, id);
            && (!HasId(movies, id) ==> res == Err(NotFound) && after == movies)
            && (HasId(movies, id) ==>
                  var idx := FirstIndex(movies, id);
                  && res == Ok(movies[idx].title)
                  && |after| == |movies| - 1
                  && (forall j :: 0 <= j < idx ==> after[j] == movies[j])
                  && (forall j :: idx <= j < |after| ==> after[j] == movies[j + 1]))
  {
  }

  /** When ids are distinct, the deleted id is no longer found and every
      other record is still found. */
  lemma DeleteThenGet(movies: seq<Movie>, id: string)
    requires DistinctIds(movies) && HasId(movies, id)
    ensures var after := DeleteOutcome(movies, id).1;
            && GetOutcome(after, id) == Err(NotFound)
            && forall j :: 0 <= j < |movies| && movies[j].id != id ==> GetOutcome(after, movies[j].id) == Ok(movies[j])
  {
    var idx := FirstIndex(movies, id);
    var after := DeleteOutcome(movies, id).1;
    DeleteRemovesOne(movies, id);
    forall j | 0 <= j < |movies| && movies[j].id != id
      ensures GetOutcome(after, movies[j].id) == Ok(movies[j])
    {
      var k := if j < idx then j else j - 1;
      assert after[k] == movies[j];
      forall l | 0 <= l < k ensures after[l].id != movies[j].id {
        if l < idx { assert after[l] == movies[l]; } else { assert after[l] == movies[l + 1]; }
      }
      FirstIndexUnique(after, movies[j].id, k);
    }
  }

  lemma DeletePreservesConsistency(movies: seq<Movie>, id: string)
    ensures Consistent(movies) ==> Consistent(DeleteOutcome(movies, id).1)
  {
    var after := DeleteOutcome(movies, id).1;
    if Consistent(movies) && HasId(movies, id) {
      var idx := FirstIndex(movies, id);
      DeleteRemovesOne(movies, id);
      forall i | 0 <= i < |after| ensures FieldsPresent(after[i]) {
        if i < idx { assert after[i] == movies[i]; } else { assert after[i] == movies[i + 1]; }
      }
      forall i, j | 0 <= i < j < |after| ensures !SameTriple(after[i], after[j]) {
        var i' := if i < idx then i else i + 1;
        var j' := if j < idx then j else j + 1;
        assert after[i] == movies[i'] && after[j] == movies[j'];
      }
    }
  }

  // ---------------------------------------------------------------------
  // Sequences of operations

  /** One request as the transport hands it to the catalogue. */
  datatype Operation =
    | CreateRequest(movieInfo: MovieRequest, randomNum: nat)
    | UpdateRequest(id: string, movieInfo: MovieRequest)
    | DeleteRequest(id: string)
    | GetRequest(id: string)

  /** The request does not make the handler panic, whatever the collection. */
  predicate Admissible(op: Operation) {
    match op
    case CreateRequest(req, r) => CanValidate(req) && r < 100
    case UpdateRequest(_, req) => req.director.Some?
    case DeleteRequest(_) => true
    case GetRequest(_) => true
  }

  predicate AllAdmissible(ops: seq<Operation>) {
    ops == [] || (Admissible(ops[0]) && AllAdmissible(ops[1..]))
  }

  /** The collection after serving one request. */
  function Step(movies: seq<Movie>, op: Operation, sha256: string -> Digest): seq<Movie>
    requires Admissible(op)
  {
    match op
    case CreateRequest(req, r) => CreateOutcome(movies, req, sha256, r).1
    case UpdateRequest(id, req) => UpdateOutcome(movies, id, req).1
    case DeleteRequest(id) => DeleteOutcome(movies, id).1
    case GetRequest(id) => movies
  }

  /** The collection after serving the requests one at a time, in order. */
  function Run(movies: seq<Movie>, ops: seq<Operation>, sha256: string -> Digest): seq<Movie>
    requires AllAdmissible(ops)
    decreases |ops|
  {
    if ops == [] then movies
    else
      Run(Step(movies, ops[0], sha256), ops[1..], sha256)
  }

  /** Whatever requests are served, in whatever order, no two stored records
      share a triple and no stored field is blank. */
  lemma {:induction false} RunPreservesConsistency(movies: seq<Movie>, ops: seq<Operation>, sha256: string -> Digest)
    requires AllAdmissible(ops)
    requires Consistent(movies)
    ensures Consistent(Run(movies, ops, sha256))
    decreases |ops|
  {
    if ops != [] {
      match ops[0] {
        case CreateRequest(req, r) => CreatePreservesConsistency(movies, req, sha256, r);
        case UpdateRequest(id, req) => UpdatePreservesConsistency(movies, id, req);
        case DeleteRequest(id) => DeletePreservesConsistency(movies, id);
        case GetRequest(id) =>
      }
      RunPreservesConsistency(Step(movies, ops[0], sha256), ops[1..], sha256);
    }
  }
}
