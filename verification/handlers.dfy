/**
 * The request handlers of the API, each a pure transition from the store and
 * the request's input to a reply carrying the payload or the error, and the
 * store after the request.
 */
module Handlers {
  import opened Wrappers
  import opened Json
  import opened Tables
  import opened Models
  import opened Database

  /** A Python exception a handler raises and does not catch. */
  datatype Fault =
    | BodyNotIndexable       // indexing a `null` body: `None['id']`
    | KeyMissing(key: string) // indexing a body without the key
    | IdNotString            // concatenating a non-string id into the reply text
    | NoUser                 // `user.id` when the user table is empty

  datatype Error =
    | MissingBody
    | MissingField(field: string)
    | NotFound
    | Rejected(violation: Violation)  // the database refuses the commit
    | Crash(fault: Fault)
  {
    /** The errors a handler answers itself; the others escape as exceptions. */
    predicate Answered()
    {
      MissingBody? || MissingField? || NotFound?
    }
  }

  /** What a handler returns: its outcome, and the store once the request is over. */
  datatype Reply<T> = Reply(result: Result<T, Error>, store: Store)
  {
    /** The HTTP status: 200 on success, 400 for an answered error, 500 for an escaped exception. */
    function Status(): (code: int)
      ensures code == 200 <==> result.Success?
      ensures code == 400 <==> result.Failure? && result.error.Answered()
      ensures code == 500 <==> result.Failure? && !result.error.Answered()
    {
      if result.Success? then 200 else if result.error.Answered() then 400 else 500
    }
  }

  /** What `GET /user/favorites` answers: both favourite tables, serialised. */
  datatype Favorites = Favorites(favoritePlanets: seq<Object>, favoriteCharacters: seq<Object>)

  // ---------------------------------------------------------------------------
  // Request bodies of the create handlers
  // ---------------------------------------------------------------------------

  datatype ColumnType = Text | Integer

  /** A field a create handler requires, named as in the body and as the column. */
  type Column = (string, ColumnType)

  /** The fields `add_people` requires, in the order it checks them. */
  const CharacterColumns: seq<Column> :=
    [("name", Text), ("genre", Text), ("race", Text), ("skin_color", Text), ("hair_color", Text), ("eye_color", Text)]

  /** The fields `add_planets` requires, in the order it checks them. */
  const PlanetColumns: seq<Column> :=
    [("name", Text), ("climate", Text), ("terrain", Text), ("population", Integer), ("mass", Integer)]

  /** The range of an SQLite INTEGER column: a signed 64-bit integer. */
  const MinInteger: int := -0x8000_0000_0000_0000
  const MaxInteger: int := 0x7FFF_FFFF_FFFF_FFFF

  /**
   * A JSON value the column can store: null never fits a NOT NULL column, and
   * an integer fits an INTEGER column only within its 64-bit range.
   */
  predicate Fits(v: Value, t: ColumnType)
  {
    match t
    case Text => v.Str?
    case Integer => v.Int? && MinInteger <= v.i <= MaxInteger
  }

  predicate Complete(o: Object, columns: seq<Column>)
  {
    forall i :: 0 <= i < |columns| ==> columns[i].0 in o
  }

  predicate WellTyped(o: Object, columns: seq<Column>)
  {
    forall i :: 0 <= i < |columns| ==> columns[i].0 in o && Fits(o[columns[i].0], columns[i].1)
  }

  /** Field `i` is the first of `columns` missing from the body. */
  predicate FirstMissingAt(o: Object, columns: seq<Column>, i: nat)
  {
    i < |columns| && columns[i].0 !in o && forall j :: 0 <= j < i ==> columns[j].0 in o
  }

  /** The body's name is a string already in the table's name column. */
  predicate NameIn(o: Object, names: set<string>)
  {
    "name" in o && o["name"].Str? && o["name"].s in names
  }

  /** The violation the database reports for a value that does not fit its column. */
  function Misfit(v: Value, column: Column): Violation
  {
    if v.Null? then NullColumn(column.0)
    else if v.Int? && column.1 == Integer then OutOfRange(column.0)
    else WrongType(column.0)
  }

  /** The validation both create handlers run: a body, then every field in order. */
  function CheckBody(body: Body, columns: seq<Column>): (r: Option<Error>)
    ensures r.None? <==> body.Some? && Complete(body.value, columns)
    ensures body.None? ==> r == Some(MissingBody)
    ensures body.Some? && r.Some? ==>
      exists i: nat :: FirstMissingAt(body.value, columns, i) && r.value == MissingField(columns[i].0)
  {
    match body
    case None => Some(MissingBody)
    case Some(o) =>
      match FirstIndex(columns, (c: Column) => c.0 !in o)
      case None => None
      case Some(i) =>
        assert FirstMissingAt(o, columns, i);
        Some(MissingField(columns[i].0))
  }

  /** The database's NOT NULL and column-type checks on a complete body. */
  function CheckTypes(o: Object, columns: seq<Column>): (r: Option<Violation>)
    requires Complete(o, columns)
    ensures r.None? <==> WellTyped(o, columns)
    ensures r.Some? ==>
      exists i :: 0 <= i < |columns| && !Fits(o[columns[i].0], columns[i].1) && r.value == Misfit(o[columns[i].0], columns[i])
  {
    match FirstIndex(columns, (c: Column) => c.0 !in o || !Fits(o[c.0], c.1))
    case None => None
    case Some(i) => Some(Misfit(o[columns[i].0], columns[i]))
  }

  /** The character's six attributes are the body's values. */
  predicate CharacterMatches(c: Character, o: Object)
  {
    && "name" in o && o["name"] == Str(c.name)
    && "genre" in o && o["genre"] == Str(c.genre)
    && "race" in o && o["race"] == Str(c.race)
    && "skin_color" in o && o["skin_color"] == Str(c.skinColor)
    && "hair_color" in o && o["hair_color"] == Str(c.hairColor)
    && "eye_color" in o && o["eye_color"] == Str(c.eyeColor)
  }

  /** The planet's five attributes are the body's values. */
  predicate PlanetMatches(p: Planet, o: Object)
  {
    && "name" in o && o["name"] == Str(p.name)
    && "climate" in o && o["climate"] == Str(p.climate)
    && "terrain" in o && o["terrain"] == Str(p.terrain)
    && "population" in o && o["population"] == Int(p.population)
    && "mass" in o && o["mass"] == Int(p.mass)
  }

  function NewCharacter(id: int, o: Object): (c: Character)
    requires WellTyped(o, CharacterColumns)
    ensures c.id == id && c.planetId.None? && CharacterMatches(c, o)
  {
    assert CharacterColumns[0].0 == "name" && CharacterColumns[1].0 == "genre" && CharacterColumns[2].0 == "race";
    assert CharacterColumns[3].0 == "skin_color" && CharacterColumns[4].0 == "hair_color" && CharacterColumns[5].0 == "eye_color";
    Character(id, o["name"].s, o["genre"].s, o["race"].s, o["skin_color"].s, o["eye_color"].s, o["hair_color"].s, None)
  }

  function NewPlanet(id: int, o: Object): (p: Planet)
    requires WellTyped(o, PlanetColumns)
    ensures p.id == id && PlanetMatches(p, o)
  {
    assert PlanetColumns[0].0 == "name" && PlanetColumns[1].0 == "climate" && PlanetColumns[2].0 == "terrain";
    assert PlanetColumns[3].0 == "population" && PlanetColumns[4].0 == "mass";
    Planet(id, o["name"].s, o["climate"].s, o["terrain"].s, o["population"].i, o["mass"].i)
  }

  // ---------------------------------------------------------------------------
  // Queries: `select(...).where(...).first()`
  // ---------------------------------------------------------------------------

  function FindCharacter(s: Store, id: int): (r: Option<nat>)
    ensures r.Some? ==> r.value < |s.characters| && s.characters[r.value].id == id
    ensures r.Some? ==> forall j :: 0 <= j < r.value ==> s.characters[j].id != id
    ensures r.None? <==> id !in Keys(s.characters, CharacterId)
  {
    FirstIndex(s.characters, (c: Character) => c.id == id)
  }

  function FindPlanet(s: Store, id: int): (r: Option<nat>)
    ensures r.Some? ==> r.value < |s.planets| && s.planets[r.value].id == id
    ensures r.Some? ==> forall j :: 0 <= j < r.value ==> s.planets[j].id != id
    ensures r.None? <==> id !in Keys(s.planets, PlanetId)
  {
    FirstIndex(s.planets, (p: Planet) => p.id == id)
  }

  /** The first favourite of character `id`, whoever owns it. */
  function FindFavoriteCharacter(s: Store, id: int): (r: Option<nat>)
    ensures r.Some? ==> r.value < |s.favoriteCharacters| && s.favoriteCharacters[r.value].characterId == id
    ensures r.Some? ==> forall j :: 0 <= j < r.value ==> s.favoriteCharacters[j].characterId != id
    ensures r.None? <==> forall j :: 0 <= j < |s.favoriteCharacters| ==> s.favoriteCharacters[j].characterId != id
  {
    FirstIndex(s.favoriteCharacters, (f: FavoriteCharacter) => f.characterId == id)
  }

  /** The first favourite of planet `id`, whoever owns it. */
  function FindFavoritePlanet(s: Store, id: int): (r: Option<nat>)
    ensures r.Some? ==> r.value < |s.favoritePlanets| && s.favoritePlanets[r.value].planetId == id
    ensures r.Some? ==> forall j :: 0 <= j < r.value ==> s.favoritePlanets[j].planetId != id
    ensures r.None? <==> forall j :: 0 <= j < |s.favoritePlanets| ==> s.favoritePlanets[j].planetId != id
  {
    FirstIndex(s.favoritePlanets, (f: FavoritePlanet) => f.planetId == id)
  }

  /** The id a delete body names: only an integer can equal an id column. */
  function IdOf(v: Value): Option<int>
  {
    if v.Int? then Some(v.i) else None
  }

  // ---------------------------------------------------------------------------
  // Listing handlers
  // ---------------------------------------------------------------------------

  /** `GET /user`. */
  function GetUsers(s: Store): (r: Reply<seq<Object>>)
    ensures r.result.Success? && r.store == s
    ensures |r.result.value| == |s.users|
    ensures forall i :: 0 <= i < |s.users| ==> r.result.value[i] == SerializeUser(s.users[i])
    ensures forall i :: 0 <= i < |r.result.value| ==> "password" !in r.result.value[i]
  {
    Reply(Success(seq(|s.users|, i requires 0 <= i < |s.users| => SerializeUser(s.users[i]))), s)
  }

  /** `GET /people`. */
  function GetCharacters(s: Store): (r: Reply<seq<Object>>)
    ensures r.result.Success? && r.store == s
    ensures |r.result.value| == |s.characters|
    ensures forall i :: 0 <= i < |s.characters| ==> r.result.value[i] == SerializeCharacter(s.characters[i])
  {
    Reply(Success(seq(|s.characters|, i requires 0 <= i < |s.characters| => SerializeCharacter(s.characters[i]))), s)
  }

  /** `GET /planet`. */
  function GetPlanets(s: Store): (r: Reply<seq<Object>>)
    ensures r.result.Success? && r.store == s
    ensures |r.result.value| == |s.planets|
    ensures forall i :: 0 <= i < |s.planets| ==> r.result.value[i] == SerializePlanet(s.planets[i])
  {
    Reply(Success(seq(|s.planets|, i requires 0 <= i < |s.planets| => SerializePlanet(s.planets[i]))), s)
  }

  /** `GET /user/favorites`: every favourite row of every user. */
  function GetUserFavorites(s: Store): (r: Reply<Favorites>)
    ensures r.result.Success? && r.store == s
    ensures |r.result.value.favoritePlanets| == |s.favoritePlanets|
    ensures |r.result.value.favoriteCharacters| == |s.favoriteCharacters|
    ensures forall i :: 0 <= i < |s.favoritePlanets| ==>
      r.result.value.favoritePlanets[i] == SerializeFavoritePlanet(s.favoritePlanets[i])
    ensures forall i :: 0 <= i < |s.favoriteCharacters| ==>
      r.result.value.favoriteCharacters[i] == SerializeFavoriteCharacter(s.favoriteCharacters[i])
  {
    var planets := seq(|s.favoritePlanets|, i requires 0 <= i < |s.favoritePlanets| =>
      SerializeFavoritePlanet(s.favoritePlanets[i]));
    var characters := seq(|s.favoriteCharacters|, i requires 0 <= i < |s.favoriteCharacters| =>
      SerializeFavoriteCharacter(s.favoriteCharacters[i]));
    Reply(Success(Favorites(planets, characters)), s)
  }

  // ---------------------------------------------------------------------------
  // Lookups
  // ---------------------------------------------------------------------------

  /** `GET /people/<id>`. */
  function GetCharacter(s: Store, peopleId: nat): (r: Reply<Object>)
    ensures r.store == s
    ensures r.result.Success? <==> peopleId in Keys(s.characters, CharacterId)
    ensures r.result.Failure? ==> r.result.error == NotFound
    ensures r.result.Success? ==>
      exists i :: 0 <= i < |s.characters| && s.characters[i].id == peopleId
        && (forall j :: 0 <= j < i ==> s.characters[j].id != peopleId)
        && r.result.value == SerializeCharacter(s.characters[i])
  {
    match FindCharacter(s, peopleId)
    case None => Reply(Failure(NotFound), s)
    case Some(i) => Reply(Success(SerializeCharacter(s.characters[i])), s)
  }

  /** `GET /planet/<id>`. */
  function GetPlanet(s: Store, planetId: nat): (r: Reply<Object>)
    ensures r.store == s
    ensures r.result.Success? <==> planetId in Keys(s.planets, PlanetId)
    ensures r.result.Failure? ==> r.result.error == NotFound
    ensures r.result.Success? ==>
      exists i :: 0 <= i < |s.planets| && s.planets[i].id == planetId
        && (forall j :: 0 <= j < i ==> s.planets[j].id != planetId)
        && r.result.value == SerializePlanet(s.planets[i])
  {
    match FindPlanet(s, planetId)
    case None => Reply(Failure(NotFound), s)
    case Some(i) => Reply(Success(SerializePlanet(s.planets[i])), s)
  }

  // ---------------------------------------------------------------------------
  // Create handlers
  // ---------------------------------------------------------------------------

  /** `POST /people`. */
  function AddPeople(s: Store, body: Body): (r: Reply<()>)
    ensures r.result.Failure? ==> r.store == s
    ensures body.None? ==> r.result == Failure(MissingBody)
    ensures forall i: nat :: body.Some? && FirstMissingAt(body.value, CharacterColumns, i) ==>
      r.result == Failure(MissingField(CharacterColumns[i].0))
    ensures body.Some? && Complete(body.value, CharacterColumns) && !WellTyped(body.value, CharacterColumns) ==>
      exists i :: 0 <= i < |CharacterColumns| && !Fits(body.value[CharacterColumns[i].0], CharacterColumns[i].1)
        && r.result == Failure(Rejected(Misfit(body.value[CharacterColumns[i].0], CharacterColumns[i])))
    ensures body.Some? && WellTyped(body.value, CharacterColumns) && NameIn(body.value, Keys(s.characters, CharacterName)) ==>
      r.result == Failure(Rejected(DuplicateValue("name")))
    ensures r.result.Success? <==>
      body.Some? && WellTyped(body.value, CharacterColumns) && !NameIn(body.value, Keys(s.characters, CharacterName))
    ensures r.result.Success? ==>
      && body.Some?
      && AppendedOne(s.characters, r.store.characters)
      && r.store.(characters := s.characters) == s
      && CharacterMatches(r.store.characters[|s.characters|], body.value)
      && r.store.characters[|s.characters|].planetId.None?
      && r.store.characters[|s.characters|].id !in Keys(s.characters, CharacterId)
  {
    match CheckBody(body, CharacterColumns)
    case Some(e) => Reply(Failure(e), s)
    case None =>
      var o := body.value;
      match CheckTypes(o, CharacterColumns)
      case Some(v) => Reply(Failure(Rejected(v)), s)
      case None =>
        var c := NewCharacter(NextId(s.characters, CharacterId), o);
        match InsertCharacter(s, c)
        case Failure(v) => Reply(Failure(Rejected(v)), s)
        case Success(s') =>
          assert s'.characters[..|s.characters|] == s.characters;
          Reply(Success(()), s')
  }

  /** `POST /planet`. */
  function AddPlanets(s: Store, body: Body): (r: Reply<()>)
    ensures r.result.Failure? ==> r.store == s
    ensures body.None? ==> r.result == Failure(MissingBody)
    ensures forall i: nat :: body.Some? && FirstMissingAt(body.value, PlanetColumns, i) ==>
      r.result == Failure(MissingField(PlanetColumns[i].0))
    ensures body.Some? && Complete(body.value, PlanetColumns) && !WellTyped(body.value, PlanetColumns) ==>
      exists i :: 0 <= i < |PlanetColumns| && !Fits(body.value[PlanetColumns[i].0], PlanetColumns[i].1)
        && r.result == Failure(Rejected(Misfit(body.value[PlanetColumns[i].0], PlanetColumns[i])))
    ensures body.Some? && WellTyped(body.value, PlanetColumns) && NameIn(body.value, Keys(s.planets, PlanetName)) ==>
      r.result == Failure(Rejected(DuplicateValue("name")))
    ensures r.result.Success? <==>
      body.Some? && WellTyped(body.value, PlanetColumns) && !NameIn(body.value, Keys(s.planets, PlanetName))
    ensures r.result.Success? ==>
      && body.Some?
      && AppendedOne(s.planets, r.store.planets)
      && r.store.(planets := s.planets) == s
      && PlanetMatches(r.store.planets[|s.planets|], body.value)
      && r.store.planets[|s.planets|].id !in Keys(s.planets, PlanetId)
  {
    match CheckBody(body, PlanetColumns)
    case Some(e) => Reply(Failure(e), s)
    case None =>
      var o := body.value;
      match CheckTypes(o, PlanetColumns)
      case Some(v) => Reply(Failure(Rejected(v)), s)
      case None =>
        var p := NewPlanet(NextId(s.planets, PlanetId), o);
        match InsertPlanet(s, p)
        case Failure(v) => Reply(Failure(Rejected(v)), s)
        case Success(s') =>
          assert s'.planets[..|s.planets|] == s.planets;
          Reply(Success(()), s')
  }

  // ---------------------------------------------------------------------------
  // Favourites: always owned by the first user, removed by target alone
  // ---------------------------------------------------------------------------

  /** `POST /favorite/people/<id>`. */
  function AddFavoriteCharacter(s: Store, peopleId: nat): (r: Reply<()>)
    ensures r.result.Failure? ==> r.store == s
    ensures peopleId !in Keys(s.characters, CharacterId) ==> r.result == Failure(NotFound)
    ensures peopleId in Keys(s.characters, CharacterId) && |s.users| == 0 ==> r.result == Failure(Crash(NoUser))
    ensures r.result.Success? <==> peopleId in Keys(s.characters, CharacterId) && |s.users| > 0
    ensures r.result.Success? ==>
      && |s.users| > 0
      && AppendedOne(s.favoriteCharacters, r.store.favoriteCharacters)
      && r.store.(favoriteCharacters := s.favoriteCharacters) == s
      && r.store.favoriteCharacters[|s.favoriteCharacters|].userId == s.users[0].id
      && r.store.favoriteCharacters[|s.favoriteCharacters|].characterId == peopleId
      && r.store.favoriteCharacters[|s.favoriteCharacters|].id !in Keys(s.favoriteCharacters, FavoriteCharacterId)
  {
    match FindCharacter(s, peopleId)
    case None => Reply(Failure(NotFound), s)
    case Some(i) =>
      if |s.users| == 0 then Reply(Failure(Crash(NoUser)), s)
      else
        var f := FavoriteCharacter(NextId(s.favoriteCharacters, FavoriteCharacterId), s.users[0].id, s.characters[i].id);
        assert (s.favoriteCharacters + [f])[..|s.favoriteCharacters|] == s.favoriteCharacters;
        Reply(Success(()), s.(favoriteCharacters := s.favoriteCharacters + [f]))
  }

  /** `POST /favorite/planet/<id>`. */
  function AddFavoritePlanet(s: Store, planetId: nat): (r: Reply<()>)
    ensures r.result.Failure? ==> r.store == s
    ensures planetId !in Keys(s.planets, PlanetId) ==> r.result == Failure(NotFound)
    ensures planetId in Keys(s.planets, PlanetId) && |s.users| == 0 ==> r.result == Failure(Crash(NoUser))
    ensures r.result.Success? <==> planetId in Keys(s.planets, PlanetId) && |s.users| > 0
    ensures r.result.Success? ==>
      && |s.users| > 0
      && AppendedOne(s.favoritePlanets, r.store.favoritePlanets)
      && r.store.(favoritePlanets := s.favoritePlanets) == s
      && r.store.favoritePlanets[|s.favoritePlanets|].userId == s.users[0].id
      && r.store.favoritePlanets[|s.favoritePlanets|].planetId == planetId
      && r.store.favoritePlanets[|s.favoritePlanets|].id !in Keys(s.favoritePlanets, FavoritePlanetId)
  {
    match FindPlanet(s, planetId)
    case None => Reply(Failure(NotFound), s)
    case Some(i) =>
      if |s.users| == 0 then Reply(Failure(Crash(NoUser)), s)
      else
        var f := FavoritePlanet(NextId(s.favoritePlanets, FavoritePlanetId), s.users[0].id, s.planets[i].id);
        assert (s.favoritePlanets + [f])[..|s.favoritePlanets|] == s.favoritePlanets;
        Reply(Success(()), s.(favoritePlanets := s.favoritePlanets + [f]))
  }

  /** `DELETE /favorite/people/<id>`. */
  function DeleteFavoriteCharacter(s: Store, peopleId: nat): (r: Reply<()>)
    ensures r.result.Failure? ==> r.result == Failure(NotFound) && r.store == s
    ensures r.result.Success? <==>
      exists j :: 0 <= j < |s.favoriteCharacters| && s.favoriteCharacters[j].characterId == peopleId
    ensures r.result.Success? ==>
      exists k :: 0 <= k < |s.favoriteCharacters| && s.favoriteCharacters[k].characterId == peopleId
        && (forall j :: 0 <= j < k ==> s.favoriteCharacters[j].characterId != peopleId)
        && r.store == s.(favoriteCharacters := RemoveAt(s.favoriteCharacters, k))
  {
    match FindFavoriteCharacter(s, peopleId)
    case None => Reply(Failure(NotFound), s)
    case Some(k) => Reply(Success(()), s.(favoriteCharacters := RemoveAt(s.favoriteCharacters, k)))
  }

  /** `DELETE /favorite/planet/<id>`. */
  function DeleteFavoritePlanet(s: Store, planetId: nat): (r: Reply<()>)
    ensures r.result.Failure? ==> r.result == Failure(NotFound) && r.store == s
    ensures r.result.Success? <==>
      exists j :: 0 <= j < |s.favoritePlanets| && s.favoritePlanets[j].planetId == planetId
    ensures r.result.Success? ==>
      exists k :: 0 <= k < |s.favoritePlanets| && s.favoritePlanets[k].planetId == planetId
        && (forall j :: 0 <= j < k ==> s.favoritePlanets[j].planetId != planetId)
        && r.store == s.(favoritePlanets := RemoveAt(s.favoritePlanets, k))
  {
    match FindFavoritePlanet(s, planetId)
    case None => Reply(Failure(NotFound), s)
    case Some(k) => Reply(Success(()), s.(favoritePlanets := RemoveAt(s.favoritePlanets, k)))
  }

  // ---------------------------------------------------------------------------
  // Deletes by body id
  // ---------------------------------------------------------------------------

  /**
   * `DELETE` of a character, with the missing-body check before the body is
   * read and a not-found reply for any id.
   */
  function DeletePeople(s: Store, body: Body): (r: Reply<()>)
    ensures r.result.Failure? ==> r.store == s
    ensures body.None? ==> r.result == Failure(MissingBody)
    ensures body.Some? && "id" !in body.value ==> r.result == Failure(Crash(KeyMissing("id")))
    ensures body.Some? && "id" in body.value ==>
      (r.result.Success? <==> exists i :: 0 <= i < |s.characters| && body.value["id"] == Int(s.characters[i].id))
    ensures body.Some? && "id" in body.value && r.result.Failure? ==> r.result.error == NotFound
    ensures r.result.Success? ==>
      && body.Some? && "id" in body.value
      && (exists k :: 0 <= k < |s.characters| && body.value["id"] == Int(s.characters[k].id)
           && (forall j :: 0 <= j < k ==> body.value["id"] != Int(s.characters[j].id))
           && r.store == s.(characters := RemoveAt(s.characters, k)))
  {
    match body
    case None => Reply(Failure(MissingBody), s)
    case Some(o) =>
      if "id" !in o then Reply(Failure(Crash(KeyMissing("id"))), s)
      else
        match IdOf(o["id"])
        case None => Reply(Failure(NotFound), s)
        case Some(id) =>
          match FindCharacter(s, id)
          case None => Reply(Failure(NotFound), s)
          case Some(k) => Reply(Success(()), s.(characters := RemoveAt(s.characters, k)))
  }

  /**
   * `delete_people` as written: it indexes the body before checking that
   * there is one, and its not-found reply concatenates the id into a string.
   */
  function DeletePeopleAsWritten(s: Store, body: Body): (r: Reply<()>)
    ensures r.result.Failure? ==> r.store == s
    ensures body.None? ==> r.result == Failure(Crash(BodyNotIndexable))
    ensures body.Some? && "id" !in body.value ==> r.result == Failure(Crash(KeyMissing("id")))
    ensures body.Some? && "id" in body.value ==>
      (r.result.Success? <==> exists i :: 0 <= i < |s.characters| && body.value["id"] == Int(s.characters[i].id))
    ensures body.Some? && "id" in body.value && r.result.Failure? ==>
      r.result.error == (if body.value["id"].Str? then NotFound else Crash(IdNotString))
    ensures r.result.Success? ==> r == DeletePeople(s, body)
  {
    match body
    case None => Reply(Failure(Crash(BodyNotIndexable)), s)
    case Some(o) =>
      if "id" !in o then Reply(Failure(Crash(KeyMissing("id"))), s)
      else
        var found := match IdOf(o["id"]) case None => None case Some(id) => FindCharacter(s, id);
        match found
        case None => Reply(Failure(if o["id"].Str? then NotFound else Crash(IdNotString)), s)
        case Some(k) => Reply(Success(()), s.(characters := RemoveAt(s.characters, k)))
  }

  /**
   * `DELETE /planet`, with the missing-body check before the body is read
   * and a not-found reply for any id.
   */
  function DeletePlanet(s: Store, body: Body): (r: Reply<()>)
    ensures r.result.Failure? ==> r.store == s
    ensures body.None? ==> r.result == Failure(MissingBody)
    ensures body.Some? && "id" !in body.value ==> r.result == Failure(Crash(KeyMissing("id")))
    ensures body.Some? && "id" in body.value ==>
      (r.result.Success? <==> exists i :: 0 <= i < |s.planets| && body.value["id"] == Int(s.planets[i].id))
    ensures body.Some? && "id" in body.value && r.result.Failure? ==> r.result.error == NotFound
    ensures r.result.Success? ==>
      && body.Some? && "id" in body.value
      && (exists k :: 0 <= k < |s.planets| && body.value["id"] == Int(s.planets[k].id)
           && (forall j :: 0 <= j < k ==> body.value["id"] != Int(s.planets[j].id))
           && r.store == s.(planets := RemoveAt(s.planets, k)))
  {
    match body
    case None => Reply(Failure(MissingBody), s)
    case Some(o) =>
      if "id" !in o then Reply(Failure(Crash(KeyMissing("id"))), s)
      else
        match IdOf(o["id"])
        case None => Reply(Failure(NotFound), s)
        case Some(id) =>
          match FindPlanet(s, id)
          case None => Reply(Failure(NotFound), s)
          case Some(k) => Reply(Success(()), s.(planets := RemoveAt(s.planets, k)))
  }

  /**
   * `delete_planet` as written: it indexes the body before checking that
   * there is one, and its not-found reply concatenates the id into a string.
   */
  function DeletePlanetAsWritten(s: Store, body: Body): (r: Reply<()>)
    ensures r.result.Failure? ==> r.store == s
    ensures body.None? ==> r.result == Failure(Crash(BodyNotIndexable))
    ensures body.Some? && "id" !in body.value ==> r.result == Failure(Crash(KeyMissing("id")))
    ensures body.Some? && "id" in body.value ==>
      (r.result.Success? <==> exists i :: 0 <= i < |s.planets| && body.value["id"] == Int(s.planets[i].id))
    ensures body.Some? && "id" in body.value && r.result.Failure? ==>
      r.result.error == (if body.value["id"].Str? then NotFound else Crash(IdNotString))
    ensures r.result.Success? ==> r == DeletePlanet(s, body)
  {
    match body
    case None => Reply(Failure(Crash(BodyNotIndexable)), s)
    case Some(o) =>
      if "id" !in o then Reply(Failure(Crash(KeyMissing("id"))), s)
      else
        var found := match IdOf(o["id"]) case None => None case Some(id) => FindPlanet(s, id);
        match found
        case None => Reply(Failure(if o["id"].Str? then NotFound else Crash(IdNotString)), s)
        case Some(k) => Reply(Success(()), s.(planets := RemoveAt(s.planets, k)))
  }
}
