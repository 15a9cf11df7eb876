/**
 * The schema invariants across requests: every create and favourite handler
 * keeps a valid store valid; the two deletes keep the keys and UNIQUE columns
 * but leave references dangling exactly when the deleted row was referenced,
 * since they delete no dependent row.
 */
module Integrity {
  import opened Wrappers
  import opened Json
  import opened Tables
  import opened Models
  import opened Database
  import opened Handlers

  /** No character lives on the planet and no favourite names it. */
  predicate PlanetUnreferenced(s: Store, id: int)
  {
    && (forall c :: c in s.characters ==> c.planetId != Some(id))
    && (forall f :: f in s.favoritePlanets ==> f.planetId != id)
  }

  /** No favourite names the character. */
  predicate CharacterUnreferenced(s: Store, id: int)
  {
    forall f :: f in s.favoriteCharacters ==> f.characterId != id
  }

  lemma AddPeopleKeepsValid(s: Store, body: Body)
    requires Valid(s)
    ensures Valid(AddPeople(s, body).store)
  {
  }

  lemma AddPlanetsKeepsValid(s: Store, body: Body)
    requires Valid(s)
    ensures Valid(AddPlanets(s, body).store)
  {
  }

  lemma {:induction false} AppendFavoriteCharacterKeepsValid(s: Store, f: FavoriteCharacter)
    requires Valid(s)
    requires f.id !in Keys(s.favoriteCharacters, FavoriteCharacterId)
    requires f.userId in Keys(s.users, UserId) && f.characterId in Keys(s.characters, CharacterId)
    ensures Valid(s.(favoriteCharacters := s.favoriteCharacters + [f]))
  {
    DistinctAppend(s.favoriteCharacters, f, FavoriteCharacterId);
  }

  lemma {:induction false} AddFavoriteCharacterKeepsValid(s: Store, peopleId: nat)
    requires Valid(s)
    ensures Valid(AddFavoriteCharacter(s, peopleId).store)
  {
    var r := AddFavoriteCharacter(s, peopleId);
    if r.result.Success? {
      var f := r.store.favoriteCharacters[|s.favoriteCharacters|];
      assert r.store.favoriteCharacters == s.favoriteCharacters + [f];
      assert UserId(s.users[0]) == f.userId;
      AppendFavoriteCharacterKeepsValid(s, f);
    }
  }

  lemma {:induction false} AppendFavoritePlanetKeepsValid(s: Store, f: FavoritePlanet)
    requires Valid(s)
    requires f.id !in Keys(s.favoritePlanets, FavoritePlanetId)
    requires f.userId in Keys(s.users, UserId) && f.planetId in Keys(s.planets, PlanetId)
    ensures Valid(s.(favoritePlanets := s.favoritePlanets + [f]))
  {
    DistinctAppend(s.favoritePlanets, f, FavoritePlanetId);
  }

  lemma {:induction false} AddFavoritePlanetKeepsValid(s: Store, planetId: nat)
    requires Valid(s)
    ensures Valid(AddFavoritePlanet(s, planetId).store)
  {
    var r := AddFavoritePlanet(s, planetId);
    if r.result.Success? {
      var f := r.store.favoritePlanets[|s.favoritePlanets|];
      assert r.store.favoritePlanets == s.favoritePlanets + [f];
      assert UserId(s.users[0]) == f.userId;
      AppendFavoritePlanetKeepsValid(s, f);
    }
  }

  lemma {:induction false} DeleteFavoriteCharacterKeepsValid(s: Store, peopleId: nat)
    requires Valid(s)
    ensures Valid(DeleteFavoriteCharacter(s, peopleId).store)
  {
    match FindFavoriteCharacter(s, peopleId)
    case None =>
    case Some(k) =>
      DistinctRemoveAt(s.favoriteCharacters, k, FavoriteCharacterId);
      RemoveAtRows(s.favoriteCharacters, k);
  }

  lemma {:induction false} DeleteFavoritePlanetKeepsValid(s: Store, planetId: nat)
    requires Valid(s)
    ensures Valid(DeleteFavoritePlanet(s, planetId).store)
  {
    match FindFavoritePlanet(s, planetId)
    case None =>
    case Some(k) =>
      DistinctRemoveAt(s.favoritePlanets, k, FavoritePlanetId);
      RemoveAtRows(s.favoritePlanets, k);
  }

  /** Removing planet row `k` alone keeps keys and names unique; references survive iff it was unreferenced. */
  lemma {:induction false} RemovePlanetIntegrity(s: Store, k: nat)
    requires Valid(s)
    requires k < |s.planets|
    ensures var s' := s.(planets := RemoveAt(s.planets, k));
      && KeysUnique(s') && ColumnsUnique(s')
      && (ReferencesValid(s') <==> PlanetUnreferenced(s, s.planets[k].id))
  {
    var s' := s.(planets := RemoveAt(s.planets, k));
    var id := s.planets[k].id;
    DistinctRemoveAt(s.planets, k, PlanetId);
    DistinctRemoveAt(s.planets, k, PlanetName);
    KeysRemoveAt(s.planets, k, PlanetId);
    assert Keys(s'.planets, PlanetId) == Keys(s.planets, PlanetId) - {id};
    if ReferencesValid(s') {
      forall c | c in s.characters ensures c.planetId != Some(id) {
        if c.planetId.Some? { assert c.planetId.value in Keys(s'.planets, PlanetId); }
      }
      forall f | f in s.favoritePlanets ensures f.planetId != id {
        assert f.planetId in Keys(s'.planets, PlanetId);
      }
    }
  }

  /** Removing character row `k` alone keeps keys and names unique; references survive iff it was unreferenced. */
  lemma {:induction false} RemoveCharacterIntegrity(s: Store, k: nat)
    requires Valid(s)
    requires k < |s.characters|
    ensures var s' := s.(characters := RemoveAt(s.characters, k));
      && KeysUnique(s') && ColumnsUnique(s')
      && (ReferencesValid(s') <==> CharacterUnreferenced(s, s.characters[k].id))
  {
    var s' := s.(characters := RemoveAt(s.characters, k));
    var id := s.characters[k].id;
    DistinctRemoveAt(s.characters, k, CharacterId);
    DistinctRemoveAt(s.characters, k, CharacterName);
    KeysRemoveAt(s.characters, k, CharacterId);
    assert Keys(s'.characters, CharacterId) == Keys(s.characters, CharacterId) - {id};
    RemoveAtRows(s.characters, k);
    if ReferencesValid(s') {
      forall f | f in s.favoriteCharacters ensures f.characterId != id {
        assert f.characterId in Keys(s'.characters, CharacterId);
      }
    }
  }

  /**
   * `delete_planet` keeps keys and names unique, and leaves every reference
   * valid exactly when no character and no favourite named the planet.
   */
  lemma {:induction false} DeletePlanetIntegrity(s: Store, id: int)
    requires Valid(s)
    requires id in Keys(s.planets, PlanetId)
    ensures var s' := DeletePlanet(s, Some(map["id" := Int(id)])).store;
      && KeysUnique(s') && ColumnsUnique(s')
      && (ReferencesValid(s') <==> PlanetUnreferenced(s, id))
  {
    var k := FindPlanet(s, id).value;
    RemovePlanetIntegrity(s, k);
  }

  /**
   * `delete_people` keeps keys and names unique, and leaves every reference
   * valid exactly when no favourite named the character.
   */
  lemma {:induction false} DeletePeopleIntegrity(s: Store, id: int)
    requires Valid(s)
    requires id in Keys(s.characters, CharacterId)
    ensures var s' := DeletePeople(s, Some(map["id" := Int(id)])).store;
      && KeysUnique(s') && ColumnsUnique(s')
      && (ReferencesValid(s') <==> CharacterUnreferenced(s, id))
  {
    var k := FindCharacter(s, id).value;
    RemoveCharacterIntegrity(s, k);
  }
}
