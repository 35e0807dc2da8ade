# Star Wars blog API: the favourites handlers

A Dafny model of the favourites endpoints of a small Flask/SQLAlchemy REST API
over users, characters, planets and favourites. The database is an in-memory
copy of the four tables, each a map from primary key to record (`App.Database`,
records in `Models`). The model covers the following:

- `POST /favorites` (`add_favorite`). The validation chain is the pure function
  `App.ValidateFavorite`. The handler is the method `App.Store.AddFavorite`, which
  changes only the favourites table. That method is proved equal to the
  transition function `App.AddFavoriteTransition`.
- `DELETE /favorites/<id>` (`delete_favorite`). The handler is `App.Store.DeleteFavorite`,
  proved equal to `App.DeleteFavoriteTransition`.
- `GET /users/<id>/favorites`, `GET /people/<id>` and `GET /planets/<id>`. These
  are pure lookups.

Ids follow Python truthiness: `character_id` and `planets_id` count as given only
when present and non-zero (`App.Truthy`). `user_id` is tested for key presence
only. A reply is a success status with its payload, or an error kind. Each error
kind has its status code (`App.StatusCode`) and its message text (`App.Message`).
The ids in a message are written in decimal as Python's `str` writes them
(`PyText.IntToDecimal`).

The database commit is a parameter. An insert either succeeds with the primary key
the database assigns, or fails with the text of the exception. A delete either
commits or fails with a text. Rollback after a failure leaves the tables as they
were. Under the declared schema, no commit of the handler's row could succeed:
both target columns are NOT NULL, and the handler writes None into one of them
(`App.SchemaRejectsEveryCandidate`). The model keeps this behind the commit
outcome. It does not treat it as intended behaviour. For each commit outcome the
model gives the handler's evidently intended reply. The consequences of the broken
`Favorites.serialize` on the code as written are listed under "## Left out".

A missing character or planet in `GET /people/<id>` and `GET /planets/<id>` is
answered with 400, while the other not-found paths use 404; the model keeps 400
as the code has it. The path ids of the GET and DELETE routes are `nat`: the routes
declare them `<int:...>`, whose converter matches only unsigned digits, so a
negative id is answered by the router with 404 before any handler runs.

## Model

| member | source | states |
|---|---|---|
| `App.Truthy` | src/app.py:122-124 | an optional id counts as given exactly when it is neither absent/null nor 0, as Python's `if not character_id` tests it |
| `App.StatusCode` | src/app.py:78-195 | every error maps to 400, 404, 409 or 500; 409 exactly for the duplicate-favourite error, 500 exactly for the two database-failure errors |
| `App.Message` | src/app.py:78-195 | the message text of each error, ids written in decimal as the f-strings write them (properties in `App.NotFoundMessageIdentifiesRow`) |
| `App.UserFavorites` | src/app.py:175 | the user's favourites relationship: exactly the favourites rows whose user_id is that user, with their stored values |
| `PyText.Contains` | src/app.py:160 | Python's `in` on strings, by scanning (its meaning is proved in `PyText.ContainsIffOccurs`) |
| `PyText.IntToDecimal` | src/app.py:130 | Python's `str` of an int as the f-strings use it: non-empty, a leading minus exactly for negative ids, decimal digits otherwise |
| `App.GetOnePeople` | src/app.py:73-80 | succeeds (200, the stored character) exactly when the id is in the characters table; otherwise 400 "Character not found" |
| `App.GetOnePlanet` | src/app.py:99-106 | succeeds (200, the stored planet) exactly when the id is in the planets table; otherwise 400 "Planet not found" |
| `App.GetUserFavorites` | src/app.py:169-179 | 404 exactly for an unknown user; otherwise 200 and exactly the favourites rows whose user_id is that user, with their stored values |
| `App.ValidateFavorite` | src/app.py:112-150 | the request passes exactly when it is well shaped (body with user_id key, exactly one truthy target), the user exists and the truthy target exists; the row it builds refers to existing rows, has exactly one target (the other None) and carries the request's user and target |
| `App.CommitError` | src/app.py:157-164 | a failed commit is 409 exactly when the exception text contains "UniqueConstraint", otherwise 500 carrying the text |
| `App.AddFavoriteTransition` | src/app.py:110-164 | only the favourites table can change; every error leaves all tables as they were; success happens exactly when validation passes and the insert commits, and then the status is 201 and exactly one row is added under the new key: the row validation built from the request (the request's user, its truthy target, None in the other target), consistent with the tables, with every old row untouched; after validation a failed commit leaves the tables as they were and replies with `CommitError` of the exception text: 409 "already in favorites" when it contains "UniqueConstraint", otherwise 500 "An error occurred: " with the text |
| `App.DeleteFavoriteTransition` | src/app.py:182-195 | an absent id is 404 with nothing changed; a present id with a committed delete is 200 and removes that key only, leaving every other row as it was; a failed commit is 500 with nothing changed |
| `App.MissingUserIdRejected` | src/app.py:115-116 | a missing body or a missing user_id key gives 400 and unchanged tables, whatever the tables hold (no lookup decides it) |
| `App.NoTargetRejected` | src/app.py:122-123 | with neither target truthy (absent, null or 0), the reply is 400 and nothing changes, whatever the tables hold |
| `App.BothTargetsRejected` | src/app.py:124-125 | with both targets truthy, the reply is 400 and nothing changes, whatever the tables hold |
| `App.UnknownUserReportedFirst` | src/app.py:128-130 | for a well-shaped request with an unknown user, the reply is 404 naming the user, even when the target is missing too; nothing changes |
| `App.MissingTargetRejected` | src/app.py:134-147 | for a known user with a truthy target that does not exist, the reply is 404 naming that character or planet; nothing changes |
| `App.SchemaRejectsEveryCandidate` | src/models.py:70-73 | no row the handler builds satisfies the declared NOT NULL constraints on both target columns |
| `App.AddFavoritePreservesConsistency` | src/app.py:128-156 | if every favourites row refers to an existing user and exactly one existing target before an add, that still holds after it |
| `App.AddFavoriteExtendsUserFavorites` | src/app.py:153-156 | after a successful add, the new row appears in its user's favourites list and no other user's list changes |
| `App.AddFavoriteCountsOne` | src/app.py:153-156 | a successful add grows its user's favourites list by exactly one row |
| `App.DeleteTwiceNotFound` | src/app.py:184-187 | after a committed delete of an id, deleting the same id again gives 404 and changes nothing |
| `App.DeleteFavoriteShrinksUserFavorites` | src/app.py:189-192 | a committed delete removes that id from its user's favourites list and changes no list otherwise |
| `App.DeleteFavoritePreservesConsistency` | src/app.py:189-192 | a delete keeps every favourites row referring to an existing user and exactly one existing target |
| `App.NotFoundMessageIdentifiesRow` | src/app.py:130 | (a supporting property of the model's message texts, not a promise of the source) two not-found messages of the same kind are equal only when they name the same id |
| `PyText.ContainsIffOccurs` | src/app.py:160 | the substring test used on the exception text holds exactly when the text contains "UniqueConstraint" at some index |
| `PyText.IntDecimalRoundTrip` | src/app.py:130 | (supporting `App.NotFoundMessageIdentifiesRow`) the decimal text that the f-string messages write for an id reads back as that id |
| `App.Store.AddFavorite` | src/app.py:110-164 | the reply and the new tables are those of `AddFavoriteTransition` for the old tables; only the favourites field may change |
| `App.Store.DeleteFavorite` | src/app.py:182-195 | the reply and the new tables are those of `DeleteFavoriteTransition` for the old tables; only the favourites field may change |

## Left out

- Flask app construction, database URL rewriting, migrations, CORS, the admin panel, the sitemap route and the server start (src/app.py:14-37, 199-201). These are configuration and I/O.
- The listing endpoints `get_user`, `get_people` and `get_planets` (src/app.py:41-95). Each is a full table scan mapped through `serialize`.
- JSON rendering. This covers `jsonify`, `APIException.to_dict` and the `serialize` methods. `utils` and `admin` are not part of this model. A reply carries the error kind, or the row or record, not a JSON body.
- SQLAlchemy itself: session semantics, real exception types and texts, and relationship loading. The commit is an abstract outcome. `App.AssignsFreshId` says that a successful insert reports a key that is not yet taken.
- App.AddFavoriteTransition: gives the evidently intended 201 reply after a successful commit. As written, the source serializes the new row inside the same `try` as the commit (src/app.py:156), and `Favorites.serialize` reads `content_id`, which the model class does not declare (src/models.py:84). The resulting AttributeError is caught (src/app.py:157-164); the rollback comes after the commit and undoes nothing; the text has no "UniqueConstraint". So the code as written replies 500 "An error occurred: …" with the row still stored. `App.Store.AddFavorite` inherits this.
- App.GetUserFavorites: gives the evidently intended 200 reply with the user's rows. As written, the list comprehension calls the same broken `serialize` (src/app.py:177) outside any `try`, so for a user with at least one favourite the handler raises and the server answers with an unhandled 500. Only a user with no favourites gets 200 (with an empty list).
- App.SchemaRejectsEveryCandidate and the consistency lemmas: the consistency invariant is that of the intended schema with a nullable unused target column. Under the declared schema no committed add of the handler's row is possible, which `App.SchemaRejectsEveryCandidate` states; the commit outcome stays a parameter rather than being derived from the schema.
- A `user_id` value that is JSON null, or that is not an integer, is not modelled. Neither is a JSON body that is not an object, or a target id that is not an integer. Request ids are `int`.
- `App.GetUserFavorites`: the favourites come back as a map keyed by id. The order of the relationship's list is not modelled.
- The `created_at` column of users (wall clock), the uniqueness of e-mails, and the relationship declarations (ORM metadata).
- Concurrency between requests. The server and the database transaction handle it.
