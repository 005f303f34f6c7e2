/**
 * main.go, the earlier single-file version of the service. Its helpers
 * (exceptionHandler, checkIfIdExists, checkIfMovieExists, generateID) and its
 * handlers (getMovie, createMovie, updateMovie, deleteMovie) are the same
 * code as the ones in internal/, acting on main.go's own package-level
 * `movies`; they are modelled by Service, Ident and Handler, with a second
 * `Handler.Store` standing for that variable. What main.go has of its own
 * is the literal it starts from.
 */
module Legacy {
  import opened Model
  import Handler

  /** The initial value of main.go's package-level `movies`. */
  function MainMovies(): seq<Movie> {
    [
      Movie("52420926a8d403", "tt1375666", "Inception", Director("Christopher", "Nolan")),
      Movie("3fd26c41ae733f", "tt0133093", "The Matrix", Director("Lana", "Wachowski")),
      Movie("9074185900698c", "tt0468569", "The Dark Knight", Director("Christopher", "Nolan")),
      Movie("e2fccb318304cf", "tt1285016", "The Social Network", Director("David", "Fincher"))
    ]
  }

  /** main.go starts from the same four records as internal/model, so every
      fact proved about that seed holds of it: four records, distinct
      triples, non-blank fields, distinct ids. */
  lemma MainMoviesIsSeed()
    ensures MainMovies() == Seed()
    ensures |MainMovies()| == 4 && Consistent(MainMovies()) && DistinctIds(MainMovies())
  {
    SeedConsistent();
    SeedIdsWellFormed();
  }

  /** A store standing for main.go's `movies` at start-up. */
  method NewMainStore() returns (store: Handler.Store)
    ensures fresh(store) && store.movies == MainMovies()
    ensures Consistent(store.movies)
  {
    MainMoviesIsSeed();
    store := new Handler.Store(MainMovies());
  }
}
