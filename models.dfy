/** The record shapes of the four tables (src/models.py). A row's primary key is
    not stored in the record: every table is a map from id to record. */
module Models {
  import opened Wrappers

  datatype Date = Date(year: int, month: int, day: int)

  /** A `user` row. Its `created_at` column defaults to the wall clock and is not modelled. */
  datatype User = User(email: string, password: string, isActive: bool)

  /** A `characters` row. */
  datatype Character = Character(imageUrl: string, description: Option<string>, birthdate: Date)

  /** A `planets` row. */
  datatype Planet = Planet(imageUrl: string, description: Option<string>, gravity: int)

  /** A `favorites` row. The two target columns are optional because the favourites
      handler writes Python `None` into the one it does not use. */
  datatype Favorite = Favorite(userId: int, characterId: Option<int>, planetsId: Option<int>)

  /** What the declared schema admits: `character_id` and `planets_id` are both
      declared NOT NULL, so a row must carry both targets. */
  predicate DeclaredSchemaAccepts(f: Favorite)
  {
    f.characterId.Some? && f.planetsId.Some?
  }
}
