/**
 * The database as one immutable value: the five tables in storage order,
 * the constraints the schema declares, and the inserts that enforce the
 * UNIQUE and PRIMARY KEY constraints when a row is committed.
 */
module Database {
  import opened Wrappers
  import opened Tables
  import opened Models

  datatype Store = Store(
    users: seq<User>,
    planets: seq<Planet>,
    characters: seq<Character>,
    favoriteCharacters: seq<FavoriteCharacter>,
    favoritePlanets: seq<FavoritePlanet>)

  /** A database with no rows. */
  const EmptyStore: Store := Store([], [], [], [], [])

  /** Why the database refuses to commit a row. */
  datatype Violation =
    | NullColumn(column: string)      // a NOT NULL column given null
    | WrongType(column: string)       // a value of another type than the column's
    | OutOfRange(column: string)      // an integer outside the INTEGER column's range
    | DuplicateKey                    // the primary key is taken
    | DuplicateValue(column: string)  // a UNIQUE column value is taken

  /** Every primary key is unique within its table. */
  predicate KeysUnique(s: Store)
  {
    && Distinct(s.users, UserId)
    && Distinct(s.planets, PlanetId)
    && Distinct(s.characters, CharacterId)
    && Distinct(s.favoriteCharacters, FavoriteCharacterId)
    && Distinct(s.favoritePlanets, FavoritePlanetId)
  }

  /** The UNIQUE columns: username, email, planet name, character name. */
  predicate ColumnsUnique(s: Store)
  {
    && Distinct(s.users, Username)
    && Distinct(s.users, Email)
    && Distinct(s.planets, PlanetName)
    && Distinct(s.characters, CharacterName)
  }

  /** Every foreign key names an existing row. */
  predicate ReferencesValid(s: Store)
  {
    && (forall c :: c in s.characters && c.planetId.Some? ==> c.planetId.value in Keys(s.planets, PlanetId))
    && (forall f :: f in s.favoriteCharacters ==>
          f.userId in Keys(s.users, UserId) && f.characterId in Keys(s.characters, CharacterId))
    && (forall f :: f in s.favoritePlanets ==>
          f.userId in Keys(s.users, UserId) && f.planetId in Keys(s.planets, PlanetId))
  }

  predicate Valid(s: Store)
  {
    KeysUnique(s) && ColumnsUnique(s) && ReferencesValid(s)
  }

  /** Committing a new user: refused when its id, username or email is taken. */
  function InsertUser(s: Store, u: User): (r: Result<Store, Violation>)
    ensures r.Success? <==>
      u.id !in Keys(s.users, UserId) && u.username !in Keys(s.users, Username) && u.email !in Keys(s.users, Email)
    ensures r.Failure? ==> r.error == DuplicateKey || r.error == DuplicateValue("username") || r.error == DuplicateValue("email")
    ensures r.Success? ==> r.value.users == s.users + [u] && r.value.(users := s.users) == s
    ensures r.Success? && Valid(s) ==> Valid(r.value)
  {
    if u.id in Keys(s.users, UserId) then Failure(DuplicateKey)
    else if u.username in Keys(s.users, Username) then Failure(DuplicateValue("username"))
    else if u.email in Keys(s.users, Email) then Failure(DuplicateValue("email"))
    else
      var s' := s.(users := s.users + [u]);
      DistinctAppend(s.users, u, UserId);
      DistinctAppend(s.users, u, Username);
      DistinctAppend(s.users, u, Email);
      KeysAppend(s.users, u, UserId);
      Success(s')
  }

  /** Committing a new planet: refused when its id or name is taken. */
  function InsertPlanet(s: Store, p: Planet): (r: Result<Store, Violation>)
    ensures r.Success? <==> p.id !in Keys(s.planets, PlanetId) && p.name !in Keys(s.planets, PlanetName)
    ensures r.Failure? ==> r.error == DuplicateKey || r.error == DuplicateValue("name")
    ensures r.Success? ==> r.value.planets == s.planets + [p] && r.value.(planets := s.planets) == s
    ensures r.Success? && Valid(s) ==> Valid(r.value)
  {
    if p.id in Keys(s.planets, PlanetId) then Failure(DuplicateKey)
    else if p.name in Keys(s.planets, PlanetName) then Failure(DuplicateValue("name"))
    else
      DistinctAppend(s.planets, p, PlanetId);
      DistinctAppend(s.planets, p, PlanetName);
      KeysAppend(s.planets, p, PlanetId);
      Success(s.(planets := s.planets + [p]))
  }

  /** Committing a new character: refused when its id or name is taken. */
  function InsertCharacter(s: Store, c: Character): (r: Result<Store, Violation>)
    ensures r.Success? <==> c.id !in Keys(s.characters, CharacterId) && c.name !in Keys(s.characters, CharacterName)
    ensures r.Failure? ==> r.error == DuplicateKey || r.error == DuplicateValue("name")
    ensures r.Success? ==> r.value.characters == s.characters + [c] && r.value.(characters := s.characters) == s
    ensures r.Success? && Valid(s) && (c.planetId.None? || c.planetId.value in Keys(s.planets, PlanetId)) ==>
      Valid(r.value)
  {
    if c.id in Keys(s.characters, CharacterId) then Failure(DuplicateKey)
    else if c.name in Keys(s.characters, CharacterName) then Failure(DuplicateValue("name"))
    else
      DistinctAppend(s.characters, c, CharacterId);
      DistinctAppend(s.characters, c, CharacterName);
      KeysAppend(s.characters, c, CharacterId);
      Success(s.(characters := s.characters + [c]))
  }
}
