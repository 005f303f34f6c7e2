# Movie catalogue — a Dafny model

This project models the logic of a small Go web service that keeps a movie
catalogue in memory. The catalogue is a package-level slice of movies. Each
movie has an id, an IMDb id, a title and a director (first and last name).
The service's core is:

- the validator `ExceptionHandler`, which reports the first blank field;
- the two linear scans: `CheckIfMovieExists` looks for a (title, first
  name, last name) triple, and `CheckIfIdExists` finds the first record
  with an id;
- `GenerateID`, which builds an id from the first six hex characters of
  the title's SHA-256 digest, a random number below 100 in decimal, and
  the last six hex characters;
- the four-record seed the slice starts with;
- the changes the handlers make to the slice: append on create, in-place
  replacement on update, splice-out on delete.

`main.go` is an earlier single-file copy of the same helpers and handlers.
They act on its own package-level `movies`. The shared Dafny members model
both copies, and some table rows below cite the `main.go` copy.

Layout, one module per source file or library routine:

- `strings.dfy` (`Strings`): Go's `strings.TrimSpace` over the `unicode.IsSpace` set.
- `encoding.dfy` (`Encoding`): `hex.EncodeToString` and `strconv.Itoa`, each with a decoder that inverts it.
- `model.dfy` (`Model`): `Director`, `Movie`, `MovieRequest`, the seed, and the catalogue invariant `Consistent`.
- `service.dfy` (`Service`): the validator and the two scans. The scans are loops over the collection.
- `ident.dfy` (`Ident`): the id generator.
- `handler.dfy` (`Handler`): each handler as a pure outcome function, plus a `Store` class.
  The class's `movies` field is the package-level slice, and its methods do the handlers' steps.
  Each method that changes the collection is proved equal to its outcome function, and to keep `Consistent`.
- `legacy.dfy` (`Legacy`): `main.go`'s own seed literal.

Behaviour of the code that the model keeps as it is:

- Ids are not checked for uniqueness. Two creates can receive the same id.
- A request without a director is not rejected up front. Create panics on it once the title and the imdb id
  have passed validation. Update panics on it once the id has been found. A request that fails earlier
  gets its typed error.
- The update handler's duplicate scan includes the record being updated.
  Re-submitting a record's own title and director is therefore rejected.
- There is no locking.

## Model

| member | source | states |
|---|---|---|
| `Strings.TrimSpace` | internal/service/movie.go:27-38 | The trimmed string is empty exactly when every character is white space. A non-empty result neither starts nor ends with white space. |
| `Strings.TrimSpaceStripsEnds` | internal/service/movie.go:27-38 | The trimmed string is the slice of the input that follows its leading white space, and every input character outside that slice is white space. |
| `Encoding.HexEncode` | internal/service/id.go:12 | The encoding of n bytes is 2n characters long, so a 32-byte digest gives 64 characters and both slices are in bounds. |
| `Encoding.HexEncodeIsLowerHex` | internal/service/id.go:12 | Every character of the encoding is a lower-case hex digit. |
| `Encoding.HexEncodeAppend` | internal/service/id.go:12 | The encoding of a concatenation is the concatenation of the encodings. |
| `Encoding.HexRoundTrip` | internal/service/id.go:12 | Decoding the hex encoding gives back the bytes. |
| `Encoding.HexEncodePrefix` | internal/service/id.go:14 | The first 2k hex characters are the encoding of the first k bytes. |
| `Encoding.HexEncodeSuffix` | internal/service/id.go:15 | The last 2k hex characters are the encoding of the last k bytes. |
| `Encoding.Itoa` | internal/service/id.go:16 | The decimal form is non-empty and all digits. It starts with '0' only when it is exactly "0", the form of 0. |
| `Encoding.AtoiItoa` | internal/service/id.go:16 | Parsing the decimal form of n gives back n. |
| `Encoding.ItoaLengthBelowHundred` | internal/service/id.go:16 | A number below 100 takes 1 digit if below 10, else 2. |
| `Model.Seed` | internal/model/movie.go:29-66 | The seed has 4 records. The first is Inception (tt1375666) by Christopher Nolan. |
| `Model.SeedTitlesInOrder` | internal/model/movie.go:29-66 | The seed titles are Inception, The Matrix, The Dark Knight, The Social Network, in that order. |
| `Model.SeedDistinctTriples` | internal/model/movie.go:33-55 | No two seed records share a triple. Inception and The Dark Knight share a director but not a title. |
| `Model.SeedFieldsPresent` | internal/model/movie.go:29-66 | Every seed id, imdb id, title, first name and last name is non-blank. |
| `Model.SeedConsistent` | internal/model/movie.go:29-66 | The seed satisfies the catalogue invariant: distinct triples, and no blank field. |
| `Model.SeedIdsWellFormed` | internal/model/movie.go:31-58 | The seed ids are pairwise distinct, 14 characters long, and lower-case hex. |
| `Service.ExceptionHandler` | internal/service/movie.go:25-41 | The result is (false, "") exactly when no field is blank; a valid request has a director. Otherwise the result is true with the message of the first blank field, in the order title, imdb id, first name, last name. A director is required only once title and imdb id have passed. |
| `Service.MessagesDistinct` | internal/service/movie.go:28-37 | The four messages are distinct, so the message identifies the field. |
| `Service.TitleReportedFirst` | main.go:104-120 | A request whose title and imdb id are both blank gets "Title cannot be empty". |
| `Service.CheckIfMovieExists` | internal/service/movie.go:9-23 | The result is true exactly when some stored record has the request's exact, untrimmed title, first name and last name. Id and imdb id are ignored, and the collection is not changed. |
| `Service.CheckIfIdExists` | internal/service/movie.go:43-54 | The result is (true, i) with i the first index holding the id, or (false, 0) when no record holds it. The collection is not changed. |
| `Service.FirstIndex` | main.go:91-102 | The first-match index is in range and holds the id. No earlier index holds it. |
| `Service.FirstIndexUnique` | internal/service/movie.go:47-51 | An index that holds the id, with no earlier index holding it, is the first match. |
| `Ident.GenerateID` | internal/service/id.go:10-20 | The id is 12 characters plus the length of the salt's decimal form, so 13 or 14. It is the hex of the first 3 digest bytes, then the salt in decimal, then the hex of the last 3 digest bytes. Every character is lower-case hex. |
| `Ident.AffixesStable` | internal/service/id.go:14-17 | For a fixed title, the first and last six characters do not depend on the random number. |
| `Ident.SaltParsesBack` | main.go:175-185 | The middle segment of the id parses back to the random number. |
| `Ident.SaltVariesId` | internal/service/id.go:16-17 | Different random numbers give different ids for the same title. |
| `Ident.IdNotBlank` | internal/service/id.go:12-17 | A generated id is never blank. |
| `Handler.Store.constructor` | internal/model/movie.go:29 | The store starts with the given records. |
| `Handler.Store.GetMovies` | internal/handler/movie.go:18-22 | Returns the whole collection in order, without changing it. |
| `Handler.Store.GetMovie` | internal/handler/movie.go:24-38 | Returns the first record with the id, or NotFound. The collection is not changed. |
| `Handler.Store.DeleteMovie` | internal/handler/movie.go:40-61 | Does what DeleteOutcome describes, and keeps the catalogue invariant. |
| `Handler.Store.CreateMovie` | internal/handler/movie.go:63-100 | Does what CreateOutcome describes, and keeps the catalogue invariant. |
| `Handler.Store.UpdateMovie` | internal/handler/movie.go:102-146 | Does what UpdateOutcome describes, and keeps the catalogue invariant. |
| `Handler.CreateAppends` | internal/handler/movie.go:84-96 | On success, the new collection is the old one plus one last record. That record has the generated id, and title, imdb id and director from the request. On failure, nothing changes. |
| `Handler.CreateValidatesFirst` | main.go:196-205 | A blank field is reported even for a duplicate triple. A valid request fails as AlreadyExists exactly when its triple is stored, and a valid request with a new triple succeeds. |
| `Handler.SeedRejectsInception` | internal/handler/movie.go:79-82 | Creating Inception by Christopher Nolan against the seed fails as a duplicate. The collection is unchanged. |
| `Handler.CreateThenGet` | internal/handler/movie.go:84-96 | After a successful create, looking up the new id returns the new record, provided no older record carried that id. |
| `Handler.CreatePreservesConsistency` | internal/handler/movie.go:74-96 | Create keeps the triples distinct and the fields non-blank. |
| `Handler.AppendPreservesConsistency` | internal/handler/movie.go:96 | Appending a record whose triple is new and whose fields are non-blank keeps the invariant. |
| `Handler.RequestFieldsPresent` | internal/handler/movie.go:74-77 | A record built from a request that passed validation has non-blank fields. |
| `Handler.UpdateChecksInOrder` | internal/handler/movie.go:107-131 | Update checks in this order: unknown id (NotFound), then duplicate triple (even with blank fields), then validation. Every failure leaves the collection unchanged. A found id with a new triple and a valid request succeeds. |
| `Handler.UpdateRejectsOwnTriple` | main.go:243-246 | Submitting a record's own title and director is rejected as a duplicate, and nothing changes. |
| `Handler.UpdateReplacesOne` | internal/handler/movie.go:133-141 | On success, only the index found changes. Its id is kept, the other fields come from the request, and the length is unchanged. |
| `Handler.UpdatePreservesConsistency` | internal/handler/movie.go:122-141 | Update keeps the triples distinct and the fields non-blank. |
| `Handler.ReplacePreservesConsistency` | internal/handler/movie.go:133 | Overwriting one record with a new, non-blank triple keeps the invariant. |
| `Handler.DeleteRemovesOne` | main.go:157-172 | An unknown id gives NotFound and changes nothing. Otherwise the first match's title is returned, the length drops by one, and the other records keep their order. |
| `Handler.DeleteThenGet` | internal/handler/movie.go:45-59 | With distinct ids, after a delete the id is no longer found, and every other record is still found. |
| `Handler.DeletePreservesConsistency` | internal/handler/movie.go:59 | Delete keeps the triples distinct and the fields non-blank. |
| `Handler.RunPreservesConsistency` | internal/handler/movie.go:35-141 | Any sequence of create, update, delete and get requests, served one at a time, keeps the triples distinct and the fields non-blank. |
| `Legacy.MainMoviesIsSeed` | main.go:43-80 | `main.go`'s initial `movies` is the same four records. It therefore has 4 records, distinct triples, non-blank fields and distinct ids. |
| `Legacy.NewMainStore` | main.go:43-80 | A fresh store holding `main.go`'s initial records satisfies the catalogue invariant. |

## Left out

- HTTP transport is not modelled: routing, server start-up (`cmd/main.go`, `main.go:268-288`), `HandleRoot`, path variables, JSON encoding and decoding, status codes and response text. Each error response is an `Error` constructor. The "Incorrect data in request" decode failure is not modelled: the outcome functions take an already-decoded request. On create the body is decoded before validation, so nothing of the core is skipped. On update it is decoded after the id lookup and before the duplicate scan (internal/handler/movie.go:107-120): a malformed body gets "Movie not found" for an unknown id and "Incorrect data in request" for a known one, and the second case is not modelled.
- SHA-256 and the UTF-8 conversion of the title are not modelled. The hash is a parameter `string -> Digest` that maps a title to some 32-byte digest. Only the hex encoding and the slicing are modelled.
- `math/rand` is not modelled. The random number is a parameter below 100.
- Concurrency is not modelled. The handlers change the shared slice without a lock while requests are served in parallel, which is a data race. The model serves one request at a time.
- Go slice aliasing is not modelled. The splice `append(x[:idx], x[idx+1:]...)` shares a backing array; the model treats it as a pure sequence splice.
- Director pointers are modelled as values. A request's director is an `Option`. The Go code dereferences a nil director, and panics, only on create once title and imdb id are non-blank (internal/service/movie.go:33), and on update once the id is found (internal/service/movie.go:12). The model states exactly those cases as preconditions; the earlier typed errors for a nil director are modelled.
- Id uniqueness is not proved, because the code never checks a new id against the stored ones. Create does not keep `DistinctIds`. `Handler.CreateThenGet` and `Handler.DeleteThenGet` assume the ids they need are unique.
- Strings are sequences of Unicode code points. Go strings are bytes: invalid UTF-8 and byte-level comparison are not modelled.
- Handler.RunPreservesConsistency: it requires every update request to carry a director, even when its id is unknown. The handler would not read the director in that case.
