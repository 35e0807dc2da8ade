/** The favourites endpoints of the API (src/app.py) over an in-memory copy of the
    four tables. The validation chain and the lookups are pure functions of the
    request and the tables; the two handlers that write (`add_favorite`,
    `delete_favorite`) are methods of `Store`, each proved equal to a transition
    function about which the properties are proved.

    The database commit is not modelled: its result is a parameter. A successful
    insert carries the primary key the database assigned; a failed one carries the
    text of the exception. For each commit outcome the model gives the handler's
    evidently intended reply. Two defects of the code as written stay outside it:
    against the declared schema a commit of the handler's row cannot succeed (both
    target columns are NOT NULL and the handler writes None into one, see
    `SchemaRejectsEveryCandidate`); and `Favorites.serialize` reads an attribute
    `content_id` the model class does not declare, so serializing a favourite
    raises. As written, a committed add therefore replies 500 with the row kept,
    and listing a user who has favourites fails; the model replies 201 and 200. */
module App {
  import opened Wrappers
  import opened PyText
  import opened Models

  /** The four tables, each keyed by primary key. */
  datatype Database = Database(
    users: map<int, User>,
    characters: map<int, Character>,
    planets: map<int, Planet>,
    favorites: map<int, Favorite>)

  /** The JSON body of `POST /favorites`, as far as the handler reads it.
      `userId` is `None` when the key is absent; `characterId` and `planetsId`
      are `None` when the key is absent or its value is null (`dict.get`). */
  datatype FavoriteRequest = FavoriteRequest(userId: Option<int>, characterId: Option<int>, planetsId: Option<int>)

  /** Python truthiness of an optional id: `None` and `0` are false. */
  function Truthy(id: Option<int>): (b: bool)
    ensures b <==> id != None && id != Some(0)
  {
    id.Some? && id.value != 0
  }

  /** Exactly one of the two targets is given (truthy). */
  predicate ExactlyOneTruthy(req: FavoriteRequest)
  {
    Truthy(req.characterId) != Truthy(req.planetsId)
  }

  /** The three checks that come before any lookup all pass. */
  predicate WellShaped(body: Option<FavoriteRequest>)
  {
    body.Some? && body.value.userId.Some? && ExactlyOneTruthy(body.value)
  }

  // ---------------------------------------------------------------------------
  // Replies

  /** Every error the handlers report, each with its HTTP status. */
  datatype ApiError =
    | MissingUserId
    | NoTarget
    | BothTargets
    | UserNotFound(userId: int)
    | CharacterNotFound(characterId: int)
    | PlanetNotFound(planetsId: int)
    | AlreadyFavorite
    | DatabaseError(detail: string)
    | FavoriteNotFound(favoriteId: int)
    | DeleteError(detail: string)
    | CharacterMissing
    | PlanetMissing

  function StatusCode(e: ApiError): (code: int)
    ensures code == 400 || code == 404 || code == 409 || code == 500
    ensures code == 409 <==> e.AlreadyFavorite?
    ensures code == 500 <==> e.DatabaseError? || e.DeleteError?
  {
    match e
    case MissingUserId | NoTarget | BothTargets => 400
    case UserNotFound(_) | CharacterNotFound(_) | PlanetNotFound(_) | FavoriteNotFound(_) => 404
    case AlreadyFavorite => 409
    case DatabaseError(_) | DeleteError(_) => 500
    case CharacterMissing | PlanetMissing => 400
  }

  /** The message text of each error, with ids written as Python's f-strings write them. */
  function Message(e: ApiError): string
  {
    match e
    case MissingUserId => "Missing user_id in request body"
    case NoTarget => "Either character_id or planets_id must be provided"
    case BothTargets => "Cannot favorite both a character and a planet at once"
    case UserNotFound(id) => "User with id " + IntToDecimal(id) + " not found"
    case CharacterNotFound(id) => "Character with id " + IntToDecimal(id) + " not found"
    case PlanetNotFound(id) => "Planet with id " + IntToDecimal(id) + " not found"
    case AlreadyFavorite => "This item is already in favorites for this user"
    case DatabaseError(detail) => "An error occurred: " + detail
    case FavoriteNotFound(id) => "Favorite with id " + IntToDecimal(id) + " not found"
    case DeleteError(detail) => "An error occurred while deleting favorite: " + detail
    case CharacterMissing => "Character not found"
    case PlanetMissing => "Planet not found"
  }

  /** A handler's reply: a success status with its payload, or an error. */
  datatype Reply<+T> = Ok(status: int, value: T) | Err(error: ApiError)
  {
    function Status(): int
    {
      if Ok? then status else StatusCode(error)
    }
  }

  /** A favourites row together with its primary key. */
  datatype Row = Row(id: int, favorite: Favorite)

  /** What the database does with `session.add` + `session.commit` of a new row. */
  datatype InsertOutcome = Inserted(id: int) | InsertFailed(message: string)

  /** What the database does with `session.delete` + `session.commit`. */
  datatype CommitOutcome = Committed | CommitFailed(message: string)

  const DeletedMessage := "Favorite deleted successfully"

  /** The primary key a successful insert reports is not already taken. */
  predicate AssignsFreshId(db: Database, outcome: InsertOutcome)
  {
    outcome.Inserted? ==> outcome.id !in db.favorites
  }

  // ---------------------------------------------------------------------------
  // Table invariant

  /** The row names exactly one target, that target is truthy and the other is None. */
  predicate ExactlyOneTarget(f: Favorite)
  {
    || (Truthy(f.characterId) && f.planetsId.None?)
    || (f.characterId.None? && Truthy(f.planetsId))
  }

  /** The row refers to an existing user and an existing character or planet. */
  predicate RowConsistent(db: Database, f: Favorite)
  {
    && f.userId in db.users
    && ExactlyOneTarget(f)
    && (f.characterId.Some? ==> f.characterId.value in db.characters)
    && (f.planetsId.Some? ==> f.planetsId.value in db.planets)
  }

  /** Every favourites row is consistent with the other tables. This is the invariant
      of the intended schema, where the unused target column may be null; under the
      declared schema (both target columns NOT NULL) it holds only of an empty
      favourites table, so the consistency lemmas below are about the intended schema. */
  ghost predicate Consistent(db: Database)
  {
    forall id :: id in db.favorites ==> RowConsistent(db, db.favorites[id])
  }

  // ---------------------------------------------------------------------------
  // Single-item lookups

  // The path ids of the GET and DELETE routes are `nat`: the routes declare them
  // `<int:...>`, and Flask's int converter matches only unsigned digit strings, so a
  // negative id never reaches these handlers.

  /** `GET /people/<id>`: the character, or 400 when there is none. */
  function GetOnePeople(db: Database, id: nat): (r: Reply<Character>)
    ensures r.Ok? <==> id in db.characters
    ensures r.Ok? ==> r.status == 200 && r.value == db.characters[id]
    ensures r.Err? ==> r.error == CharacterMissing && r.Status() == 400
  {
    if id !in db.characters then Err(CharacterMissing) else Ok(200, db.characters[id])
  }

  /** `GET /planets/<id>`: the planet, or 400 when there is none. */
  function GetOnePlanet(db: Database, id: nat): (r: Reply<Planet>)
    ensures r.Ok? <==> id in db.planets
    ensures r.Ok? ==> r.status == 200 && r.value == db.planets[id]
    ensures r.Err? ==> r.error == PlanetMissing && r.Status() == 400
  {
    if id !in db.planets then Err(PlanetMissing) else Ok(200, db.planets[id])
  }

  // ---------------------------------------------------------------------------
  // Listing a user's favourites

  /** The rows of `favorites` that belong to user `userId` (the `user.favorites` relationship). */
  function UserFavorites(favorites: map<int, Favorite>, userId: int): (r: map<int, Favorite>)
    ensures forall id :: id in r <==> id in favorites && favorites[id].userId == userId
    ensures forall id :: id in r ==> r[id] == favorites[id]
  {
    map id | id in favorites && favorites[id].userId == userId :: favorites[id]
  }

  /** `GET /users/<user_id>/favorites`: 404 for an unknown user, otherwise exactly that user's rows. */
  function GetUserFavorites(db: Database, userId: nat): (r: Reply<map<int, Favorite>>)
    ensures r.Err? <==> userId !in db.users
    ensures r.Err? ==> r.error == UserNotFound(userId) && r.Status() == 404
    ensures r.Ok? ==> r.status == 200
    ensures r.Ok? ==> forall id :: id in r.value <==> id in db.favorites && db.favorites[id].userId == userId
    ensures r.Ok? ==> forall id :: id in r.value ==> r.value[id] == db.favorites[id]
  {
    if userId !in db.users then Err(UserNotFound(userId)) else Ok(200, UserFavorites(db.favorites, userId))
  }

  // ---------------------------------------------------------------------------
  // Adding a favourite

  /** The conditions under which the handler reaches the insert. */
  predicate Admissible(db: Database, body: Option<FavoriteRequest>)
  {
    && WellShaped(body)
    && body.value.userId.value in db.users
    && (Truthy(body.value.characterId) ==> body.value.characterId.value in db.characters)
    && (Truthy(body.value.planetsId) ==> body.value.planetsId.value in db.planets)
  }

  /** The validation chain of `POST /favorites`, in the handler's order: body and
      `user_id` key, at least one target, not both targets, the user, the target.
      On success, the row the handler is about to insert. */
  function ValidateFavorite(db: Database, body: Option<FavoriteRequest>): (r: Result<Favorite, ApiError>)
    ensures r.Success? <==> Admissible(db, body)
    ensures r.Success? ==> RowConsistent(db, r.value)
    ensures r.Success? ==>
              && r.value.userId == body.value.userId.value
              && (Truthy(body.value.characterId) ==> r.value.characterId == body.value.characterId)
              && (Truthy(body.value.planetsId) ==> r.value.planetsId == body.value.planetsId)
  {
    if body.None? || body.value.userId.None? then Failure(MissingUserId)
    else
      var userId, characterId, planetsId := body.value.userId.value, body.value.characterId, body.value.planetsId;
      if !Truthy(characterId) && !Truthy(planetsId) then Failure(NoTarget)
      else if Truthy(characterId) && Truthy(planetsId) then Failure(BothTargets)
      else if userId !in db.users then Failure(UserNotFound(userId))
      else if Truthy(characterId) then
        if characterId.value !in db.characters then Failure(CharacterNotFound(characterId.value))
        else Success(Favorite(userId, characterId, None))
      else
        if planetsId.value !in db.planets then Failure(PlanetNotFound(planetsId.value))
        else Success(Favorite(userId, None, planetsId))
  }

  /** The error a failed commit is reported as: 409 when the exception text
      mentions "UniqueConstraint", 500 with the text otherwise. */
  function CommitError(message: string): (e: ApiError)
    ensures StatusCode(e) == 409 <==> Contains(message, "UniqueConstraint")
    ensures StatusCode(e) == 500 <==> !Contains(message, "UniqueConstraint")
    ensures StatusCode(e) == 500 ==> e == DatabaseError(message)
  {
    if Contains(message, "UniqueConstraint") then AlreadyFavorite else DatabaseError(message)
  }

  /** `POST /favorites`: the reply and the tables afterwards, for a given commit outcome.
      A rejected request and a failed (rolled back) commit leave the tables as they were;
      a successful commit adds exactly the validated row under the assigned key. */
  function AddFavoriteTransition(db: Database, body: Option<FavoriteRequest>, outcome: InsertOutcome): (res: (Reply<Row>, Database))
    requires AssignsFreshId(db, outcome)
    ensures res.1.users == db.users && res.1.characters == db.characters && res.1.planets == db.planets
    ensures res.0.Err? ==> res.1 == db
    ensures res.0.Ok? <==> Admissible(db, body) && outcome.Inserted?
    ensures res.0.Ok? ==>
              && res.0.status == 201
              && res.0.value.id == outcome.id
              && res.0.value.favorite == ValidateFavorite(db, body).value
              && res.0.value.favorite.userId == body.value.userId.value
              && RowConsistent(db, res.0.value.favorite)
              && res.1.favorites.Keys == db.favorites.Keys + {outcome.id}
              && res.1.favorites[outcome.id] == res.0.value.favorite
              && (forall k :: k in db.favorites ==> res.1.favorites[k] == db.favorites[k])
              && |res.1.favorites| == |db.favorites| + 1
    ensures Admissible(db, body) && outcome.InsertFailed? ==>
              res.0 == Err(CommitError(outcome.message)) && res.1 == db
    ensures Admissible(db, body) && outcome.InsertFailed? ==>
              && (res.0.Status() == 409 <==> Contains(outcome.message, "UniqueConstraint"))
              && (res.0.Status() == 500 <==> !Contains(outcome.message, "UniqueConstraint"))
  {
    match ValidateFavorite(db, body)
    case Failure(e) => (Err(e), db)
    case Success(f) =>
      match outcome
      case Inserted(id) => (Ok(201, Row(id, f)), db.(favorites := db.favorites[id := f]))
      case InsertFailed(message) => (Err(CommitError(message)), db)
  }

  // ---------------------------------------------------------------------------
  // Deleting a favourite

  /** `DELETE /favorites/<favorite_id>`: the reply and the tables afterwards. */
  function DeleteFavoriteTransition(db: Database, favoriteId: nat, outcome: CommitOutcome): (res: (Reply<string>, Database))
    ensures res.1.users == db.users && res.1.characters == db.characters && res.1.planets == db.planets
    ensures favoriteId !in db.favorites ==>
              res.0 == Err(FavoriteNotFound(favoriteId)) && res.0.Status() == 404 && res.1 == db
    ensures favoriteId in db.favorites && outcome.Committed? ==>
              && res.0 == Ok(200, DeletedMessage)
              && res.1.favorites.Keys == db.favorites.Keys - {favoriteId}
              && (forall k :: k in res.1.favorites ==> res.1.favorites[k] == db.favorites[k])
    ensures favoriteId in db.favorites && outcome.CommitFailed? ==>
              res.0 == Err(DeleteError(outcome.message)) && res.0.Status() == 500 && res.1 == db
  {
    if favoriteId !in db.favorites then (Err(FavoriteNotFound(favoriteId)), db)
    else
      match outcome
      case Committed => (Ok(200, DeletedMessage), db.(favorites := db.favorites - {favoriteId}))
      case CommitFailed(message) => (Err(DeleteError(message)), db)
  }

  // ---------------------------------------------------------------------------
  // Properties of POST /favorites

  /** A missing body or a body without the `user_id` key is a 400, whatever the
      tables hold: no lookup decides it and nothing changes. The test is on the key,
      so `user_id: 0` passes it. */
  lemma MissingUserIdRejected(db: Database, body: Option<FavoriteRequest>, outcome: InsertOutcome)
    requires AssignsFreshId(db, outcome)
    requires body.None? || body.value.userId.None?
    ensures AddFavoriteTransition(db, body, outcome) == (Err(MissingUserId), db)
    ensures AddFavoriteTransition(db, body, outcome).0.Status() == 400
  {
  }

  /** With the key present but neither target truthy (absent, null or 0): 400, nothing changes. */
  lemma NoTargetRejected(db: Database, body: Option<FavoriteRequest>, outcome: InsertOutcome)
    requires AssignsFreshId(db, outcome)
    requires body.Some? && body.value.userId.Some?
    requires !Truthy(body.value.characterId) && !Truthy(body.value.planetsId)
    ensures AddFavoriteTransition(db, body, outcome) == (Err(NoTarget), db)
    ensures AddFavoriteTransition(db, body, outcome).0.Status() == 400
  {
  }

  /** With both targets truthy: 400, nothing changes, whatever the tables hold. */
  lemma BothTargetsRejected(db: Database, body: Option<FavoriteRequest>, outcome: InsertOutcome)
    requires AssignsFreshId(db, outcome)
    requires body.Some? && body.value.userId.Some?
    requires Truthy(body.value.characterId) && Truthy(body.value.planetsId)
    ensures AddFavoriteTransition(db, body, outcome) == (Err(BothTargets), db)
    ensures AddFavoriteTransition(db, body, outcome).0.Status() == 400
  {
  }

  /** The user is looked up before the target: an unknown user is reported as such
      even when the character or planet is missing too. */
  lemma UnknownUserReportedFirst(db: Database, body: Option<FavoriteRequest>, outcome: InsertOutcome)
    requires AssignsFreshId(db, outcome)
    requires WellShaped(body) && body.value.userId.value !in db.users
    ensures AddFavoriteTransition(db, body, outcome) == (Err(UserNotFound(body.value.userId.value)), db)
    ensures AddFavoriteTransition(db, body, outcome).0.Status() == 404
  {
  }

  /** A known user with a truthy target that does not exist: 404 naming that target, nothing changes. */
  lemma MissingTargetRejected(db: Database, body: Option<FavoriteRequest>, outcome: InsertOutcome)
    requires AssignsFreshId(db, outcome)
    requires WellShaped(body) && body.value.userId.value in db.users
    requires || (Truthy(body.value.characterId) && body.value.characterId.value !in db.characters)
             || (Truthy(body.value.planetsId) && body.value.planetsId.value !in db.planets)
    ensures var res := AddFavoriteTransition(db, body, outcome);
            && res.1 == db
            && res.0.Status() == 404
            && (Truthy(body.value.characterId) ==> res.0.error == CharacterNotFound(body.value.characterId.value))
            && (Truthy(body.value.planetsId) ==> res.0.error == PlanetNotFound(body.value.planetsId.value))
  {
  }

  /** Under the declared schema (both target columns NOT NULL) no row the handler
      builds could be stored: each carries None in one target. */
  lemma SchemaRejectsEveryCandidate(db: Database, body: Option<FavoriteRequest>)
    requires ValidateFavorite(db, body).Success?
    ensures !DeclaredSchemaAccepts(ValidateFavorite(db, body).value)
  {
  }

  /** A successful add keeps the tables consistent. */
  lemma AddFavoritePreservesConsistency(db: Database, body: Option<FavoriteRequest>, outcome: InsertOutcome)
    requires AssignsFreshId(db, outcome) && Consistent(db)
    ensures Consistent(AddFavoriteTransition(db, body, outcome).1)
  {
  }

  /** After a successful add, the new row is listed for its user and for nobody else. */
  lemma AddFavoriteExtendsUserFavorites(db: Database, body: Option<FavoriteRequest>, outcome: InsertOutcome, userId: int)
    requires AssignsFreshId(db, outcome)
    requires AddFavoriteTransition(db, body, outcome).0.Ok?
    ensures var res := AddFavoriteTransition(db, body, outcome);
            var row := res.0.value;
            UserFavorites(res.1.favorites, userId)
              == if userId == row.favorite.userId
                 then UserFavorites(db.favorites, userId)[row.id := row.favorite]
                 else UserFavorites(db.favorites, userId)
  {
  }

  /** A successful add grows the user's list by exactly one row. */
  lemma AddFavoriteCountsOne(db: Database, body: Option<FavoriteRequest>, outcome: InsertOutcome)
    requires AssignsFreshId(db, outcome)
    requires AddFavoriteTransition(db, body, outcome).0.Ok?
    ensures var res := AddFavoriteTransition(db, body, outcome);
            var userId := res.0.value.favorite.userId;
            |UserFavorites(res.1.favorites, userId)| == |UserFavorites(db.favorites, userId)| + 1
  {
    var res := AddFavoriteTransition(db, body, outcome);
    var userId := res.0.value.favorite.userId;
    AddFavoriteExtendsUserFavorites(db, body, outcome, userId);
    assert res.0.value.id !in UserFavorites(db.favorites, userId);
  }

  // ---------------------------------------------------------------------------
  // Properties of DELETE /favorites/<id>

  /** Deleting the same id twice: the second attempt is a 404 and changes nothing. */
  lemma DeleteTwiceNotFound(db: Database, favoriteId: nat, first: CommitOutcome, second: CommitOutcome)
    requires first.Committed?
    ensures var once := DeleteFavoriteTransition(db, favoriteId, first).1;
            var twice := DeleteFavoriteTransition(once, favoriteId, second);
            twice.0 == Err(FavoriteNotFound(favoriteId)) && twice.0.Status() == 404 && twice.1 == once
  {
  }

  /** A committed delete removes the row from its user's list and from no other. */
  lemma DeleteFavoriteShrinksUserFavorites(db: Database, favoriteId: nat, outcome: CommitOutcome, userId: int)
    requires outcome.Committed?
    ensures UserFavorites(DeleteFavoriteTransition(db, favoriteId, outcome).1.favorites, userId)
              == UserFavorites(db.favorites, userId) - {favoriteId}
  {
  }

  /** Deleting keeps the tables consistent. */
  lemma DeleteFavoritePreservesConsistency(db: Database, favoriteId: nat, outcome: CommitOutcome)
    requires Consistent(db)
    ensures Consistent(DeleteFavoriteTransition(db, favoriteId, outcome).1)
  {
  }

  // ---------------------------------------------------------------------------
  // Messages

  /** A not-found message names its id: two such messages of the same kind are equal only for the same id. */
  lemma NotFoundMessageIdentifiesRow(e1: ApiError, e2: ApiError)
    requires || (e1.UserNotFound? && e2.UserNotFound?)
             || (e1.CharacterNotFound? && e2.CharacterNotFound?)
             || (e1.PlanetNotFound? && e2.PlanetNotFound?)
             || (e1.FavoriteNotFound? && e2.FavoriteNotFound?)
    requires Message(e1) == Message(e2)
    ensures e1 == e2
  {
    var prefix, suffix, a, b := "", " not found", 0, 0;
    match e1 {
      case UserNotFound(x) => prefix, a, b := "User with id ", x, e2.userId;
      case CharacterNotFound(x) => prefix, a, b := "Character with id ", x, e2.characterId;
      case PlanetNotFound(x) => prefix, a, b := "Planet with id ", x, e2.planetsId;
      case FavoriteNotFound(x) => prefix, a, b := "Favorite with id ", x, e2.favoriteId;
    }
    StripFrame(prefix, IntToDecimal(a), IntToDecimal(b), suffix);
    IntToDecimalInjective(a, b);
  }

  lemma StripFrame(prefix: string, x: string, y: string, suffix: string)
    requires prefix + x + suffix == prefix + y + suffix
    ensures x == y
  {
    var m := prefix + x + suffix;
    assert |x| == |y|;
    assert x == m[|prefix|..|prefix| + |x|];
    assert y == m[|prefix|..|prefix| + |y|];
  }

  // ---------------------------------------------------------------------------
  // The store and the two handlers that write

  /** The session's view of the database. Only the two favourites handlers change it,
      and they change only the favourites table. */
  class Store {
    var users: map<int, User>
    var characters: map<int, Character>
    var planets: map<int, Planet>
    var favorites: map<int, Favorite>

    constructor (db: Database)
      ensures Snapshot() == db
    {
      users, characters, planets, favorites := db.users, db.characters, db.planets, db.favorites;
    }

    function Snapshot(): Database
      reads this
    {
      Database(users, characters, planets, favorites)
    }

    /** `add_favorite`: validate, stage the new row, commit; on a failed commit
        roll back and report 409 or 500. */
    method AddFavorite(body: Option<FavoriteRequest>, outcome: InsertOutcome) returns (r: Reply<Row>)
      requires AssignsFreshId(Snapshot(), outcome)
      modifies this`favorites
      ensures (r, Snapshot()) == AddFavoriteTransition(old(Snapshot()), body, outcome)
    {
      var checked := ValidateFavorite(Snapshot(), body);
      if checked.Failure? {
        return Err(checked.error);
      }
      var pending := checked.value;
      match outcome {
        case Inserted(id) =>
          // The commit went through and the database assigned `id`.
          favorites := favorites[id := pending];
          r := Ok(201, Row(id, pending));
        case InsertFailed(message) =>
          // Rollback: the staged row is discarded and the table is as before.
          r := Err(CommitError(message));
      }
    }

    /** `delete_favorite`: look the row up, stage its removal, commit; on a failed
        commit roll back and report 500. */
    method DeleteFavorite(favoriteId: nat, outcome: CommitOutcome) returns (r: Reply<string>)
      modifies this`favorites
      ensures (r, Snapshot()) == DeleteFavoriteTransition(old(Snapshot()), favoriteId, outcome)
    {
      if favoriteId !in favorites {
        return Err(FavoriteNotFound(favoriteId));
      }
      var staged := favorites - {favoriteId};
      match outcome {
        case Committed =>
          favorites := staged;
          r := Ok(200, DeletedMessage);
        case CommitFailed(message) =>
          // Rollback: the staged removal is discarded.
          r := Err(DeleteError(message));
      }
    }
  }
}
