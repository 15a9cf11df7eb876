/**
 * The five tables of the schema and the dictionaries their `serialize`
 * methods produce. Every column declared non-null is a plain field; the
 * nullable foreign key `Character.planet_id` is an `Option`.
 */
module Models {
  import opened Wrappers
  import opened Json

  datatype User = User(
    id: int,
    username: string,
    password: string,
    email: string,
    singupDate: int,   // the column is spelled `singup_date`
    name: string,
    isActive: bool)

  datatype Planet = Planet(
    id: int,
    name: string,
    climate: string,
    terrain: string,
    population: int,
    mass: int)

  datatype Character = Character(
    id: int,
    name: string,
    genre: string,
    race: string,
    skinColor: string,
    eyeColor: string,
    hairColor: string,
    planetId: Option<int>)

  datatype FavoriteCharacter = FavoriteCharacter(id: int, userId: int, characterId: int)

  datatype FavoritePlanet = FavoritePlanet(id: int, userId: int, planetId: int)

  // Column projections, named so that every query and constraint refers to
  // the same function.
  function UserId(u: User): int { u.id }
  function Username(u: User): string { u.username }
  function Email(u: User): string { u.email }
  function PlanetId(p: Planet): int { p.id }
  function PlanetName(p: Planet): string { p.name }
  function CharacterId(c: Character): int { c.id }
  function CharacterName(c: Character): string { c.name }
  function FavoriteCharacterId(f: FavoriteCharacter): int { f.id }
  function FavoritePlanetId(f: FavoritePlanet): int { f.id }

  /** `User.serialize`: the public profile, without the password or the active flag. */
  function SerializeUser(u: User): (d: Object)
    ensures d.Keys == {"id", "username", "email", "singup date", "name"}
    ensures "password" !in d && "is_active" !in d
    ensures d["id"] == Int(u.id) && d["username"] == Str(u.username) && d["email"] == Str(u.email)
    ensures d["singup date"] == Int(u.singupDate) && d["name"] == Str(u.name)
  {
    map["id" := Int(u.id), "username" := Str(u.username), "email" := Str(u.email),
        "singup date" := Int(u.singupDate), "name" := Str(u.name)]
  }

  /** `Planet.serialize`: every column, with the climate under the key `clima`. */
  function SerializePlanet(p: Planet): (d: Object)
    ensures d.Keys == {"id", "name", "clima", "terrain", "population", "mass"}
    ensures "climate" !in d
    ensures d["id"] == Int(p.id) && d["name"] == Str(p.name) && d["clima"] == Str(p.climate)
    ensures d["terrain"] == Str(p.terrain) && d["population"] == Int(p.population) && d["mass"] == Int(p.mass)
  {
    map["id" := Int(p.id), "name" := Str(p.name), "clima" := Str(p.climate),
        "terrain" := Str(p.terrain), "population" := Int(p.population), "mass" := Int(p.mass)]
  }

  /** `Character.serialize`: no hair colour and no planet. */
  function SerializeCharacter(c: Character): (d: Object)
    ensures d.Keys == {"id", "name", "genre", "race", "skin color", "eye color"}
    ensures "hair_color" !in d && "hair color" !in d && "planet_id" !in d
    ensures d["id"] == Int(c.id) && d["name"] == Str(c.name) && d["genre"] == Str(c.genre)
    ensures d["race"] == Str(c.race) && d["skin color"] == Str(c.skinColor) && d["eye color"] == Str(c.eyeColor)
  {
    map["id" := Int(c.id), "name" := Str(c.name), "genre" := Str(c.genre), "race" := Str(c.race),
        "skin color" := Str(c.skinColor), "eye color" := Str(c.eyeColor)]
  }

  /** `FavoriteCharacter.serialize`: the row id, the owner and the character. */
  function SerializeFavoriteCharacter(f: FavoriteCharacter): (d: Object)
    ensures d.Keys == {"id", "user", "character"}
    ensures d["id"] == Int(f.id) && d["user"] == Int(f.userId) && d["character"] == Int(f.characterId)
  {
    map["id" := Int(f.id), "user" := Int(f.userId), "character" := Int(f.characterId)]
  }

  /** `FavoritePlanet.serialize`: the row id, the owner and the planet. */
  function SerializeFavoritePlanet(f: FavoritePlanet): (d: Object)
    ensures d.Keys == {"id", "user", "planet"}
    ensures d["id"] == Int(f.id) && d["user"] == Int(f.userId) && d["planet"] == Int(f.planetId)
  {
    map["id" := Int(f.id), "user" := Int(f.userId), "planet" := Int(f.planetId)]
  }

  /** Two users serialise alike exactly when they agree on every public column. */
  lemma SerializeUserExposes(a: User, b: User)
    ensures SerializeUser(a) == SerializeUser(b) <==>
      a.id == b.id && a.username == b.username && a.email == b.email
      && a.singupDate == b.singupDate && a.name == b.name
  {
  }

  /** The password and the active flag never influence what is emitted. */
  lemma SerializeUserHidesSecrets(u: User, password: string, isActive: bool)
    ensures SerializeUser(u.(password := password, isActive := isActive)) == SerializeUser(u)
  {
  }

  /** Two characters serialise alike exactly when they agree on every emitted column. */
  lemma SerializeCharacterExposes(a: Character, b: Character)
    ensures SerializeCharacter(a) == SerializeCharacter(b) <==>
      a.id == b.id && a.name == b.name && a.genre == b.genre && a.race == b.race
      && a.skinColor == b.skinColor && a.eyeColor == b.eyeColor
  {
  }

  /** Planets serialise alike only when they are the same row: every column is emitted. */
  lemma SerializePlanetInjective(a: Planet, b: Planet)
    ensures SerializePlanet(a) == SerializePlanet(b) <==> a == b
  {
  }

  /** Favourite rows serialise alike only when they are the same row. */
  lemma SerializeFavoritesInjective(a: FavoriteCharacter, b: FavoriteCharacter, c: FavoritePlanet, d: FavoritePlanet)
    ensures SerializeFavoriteCharacter(a) == SerializeFavoriteCharacter(b) <==> a == b
    ensures SerializeFavoritePlanet(c) == SerializeFavoritePlanet(d) <==> c == d
  {
  }
}
