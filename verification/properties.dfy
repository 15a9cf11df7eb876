/**
 * Properties relating several handlers: what a create makes visible to the
 * lookups and deletes, the favourite semantics over a round trip, and the
 * schema invariants each handler keeps or breaks.
 */
module Properties {
  import opened Wrappers
  import opened Json
  import opened Tables
  import opened Models
  import opened Database
  import opened Handlers

  /** The body of a delete request naming `id`. */
  function IdBody(id: int): Body
  {
    Some(map["id" := Int(id)])
  }

  // ---------------------------------------------------------------------------
  // A created row is what the lookup returns
  // ---------------------------------------------------------------------------

  lemma AddPeopleThenGet(s: Store, body: Body)
    requires AddPeople(s, body).result.Success?
    requires forall i :: 0 <= i < |s.characters| ==> s.characters[i].id >= 0
    ensures var s' := AddPeople(s, body).store;
      var c := s'.characters[|s.characters|];
      && c.id >= 0
      && GetCharacter(s', c.id).result == Success(SerializeCharacter(c))
      && GetCharacter(s', c.id).result.value["name"] == body.value["name"]
      && GetCharacter(s', c.id).result.value["genre"] == body.value["genre"]
      && GetCharacter(s', c.id).result.value["race"] == body.value["race"]
      && GetCharacter(s', c.id).result.value["skin color"] == body.value["skin_color"]
      && GetCharacter(s', c.id).result.value["eye color"] == body.value["eye_color"]
  {
  }

  lemma AddPlanetsThenGet(s: Store, body: Body)
    requires AddPlanets(s, body).result.Success?
    requires forall i :: 0 <= i < |s.planets| ==> s.planets[i].id >= 0
    ensures var s' := AddPlanets(s, body).store;
      var p := s'.planets[|s.planets|];
      && p.id >= 0
      && GetPlanet(s', p.id).result == Success(SerializePlanet(p))
      && GetPlanet(s', p.id).result.value["name"] == body.value["name"]
      && GetPlanet(s', p.id).result.value["clima"] == body.value["climate"]
      && GetPlanet(s', p.id).result.value["terrain"] == body.value["terrain"]
      && GetPlanet(s', p.id).result.value["population"] == body.value["population"]
      && GetPlanet(s', p.id).result.value["mass"] == body.value["mass"]
  {
  }

  /** A row appended with a fresh key is the only row carrying that key. */
  lemma FreshIsFirst<T>(before: seq<T>, after: seq<T>, key: T -> int)
    requires AppendedOne(before, after)
    requires key(after[|before|]) !in Keys(before, key)
    ensures forall j :: 0 <= j < |before| ==> key(after[j]) != key(after[|before|])
  {
  }

  // ---------------------------------------------------------------------------
  // Creating then deleting a row restores the store
  // ---------------------------------------------------------------------------

  /** Deleting a planet appended with a fresh id removes exactly that row. */
  lemma {:induction false} DeleteAppendedPlanet(s: Store, s': Store)
    requires AppendedOne(s.planets, s'.planets)
    requires s'.(planets := s.planets) == s
    requires s'.planets[|s.planets|].id !in Keys(s.planets, PlanetId)
    ensures var id := s'.planets[|s.planets|].id;
      && DeletePlanet(s', IdBody(id)) == Reply(Success(()), s)
      && DeletePlanetAsWritten(s', IdBody(id)) == Reply(Success(()), s)
  {
    var n := |s.planets|;
    var p := s'.planets[n];
    FreshIsFirst(s.planets, s'.planets, PlanetId);
    assert s'.planets == s.planets + [p];
    assert FindPlanet(s', p.id) == Some(n);
    RemoveLast(s.planets, p);
  }

  lemma {:induction false} AddPlanetsThenDelete(s: Store, body: Body)
    requires AddPlanets(s, body).result.Success?
    ensures var s' := AddPlanets(s, body).store;
      var id := s'.planets[|s.planets|].id;
      && DeletePlanet(s', IdBody(id)) == Reply(Success(()), s)
      && DeletePlanetAsWritten(s', IdBody(id)) == Reply(Success(()), s)
  {
    DeleteAppendedPlanet(s, AddPlanets(s, body).store);
  }

  /** Deleting a character appended with a fresh id removes exactly that row. */
  lemma {:induction false} DeleteAppendedCharacter(s: Store, s': Store)
    requires AppendedOne(s.characters, s'.characters)
    requires s'.(characters := s.characters) == s
    requires s'.characters[|s.characters|].id !in Keys(s.characters, CharacterId)
    ensures var id := s'.characters[|s.characters|].id;
      && DeletePeople(s', IdBody(id)) == Reply(Success(()), s)
      && DeletePeopleAsWritten(s', IdBody(id)) == Reply(Success(()), s)
  {
    var n := |s.characters|;
    var c := s'.characters[n];
    FreshIsFirst(s.characters, s'.characters, CharacterId);
    assert s'.characters == s.characters + [c];
    assert FindCharacter(s', c.id) == Some(n);
    RemoveLast(s.characters, c);
  }

  lemma {:induction false} AddPeopleThenDelete(s: Store, body: Body)
    requires AddPeople(s, body).result.Success?
    ensures var s' := AddPeople(s, body).store;
      var id := s'.characters[|s.characters|].id;
      && DeletePeople(s', IdBody(id)) == Reply(Success(()), s)
      && DeletePeopleAsWritten(s', IdBody(id)) == Reply(Success(()), s)
  {
    DeleteAppendedCharacter(s, AddPeople(s, body).store);
  }

  // ---------------------------------------------------------------------------
  // Favourites: adding then removing one does not necessarily undo the add
  // ---------------------------------------------------------------------------

  /**
   * Deleting the favourites of a character after one was appended for it:
   * the store comes back only when the character had no favourite before;
   * otherwise the oldest favourite goes, whoever owns it, and the new row stays.
   */
  lemma {:induction false} DeleteAfterAppendedFavoriteCharacter(s: Store, s1: Store, peopleId: nat)
    requires AppendedOne(s.favoriteCharacters, s1.favoriteCharacters)
    requires s1.(favoriteCharacters := s.favoriteCharacters) == s
    requires s1.favoriteCharacters[|s.favoriteCharacters|].characterId == peopleId
    ensures var f := s1.favoriteCharacters[|s.favoriteCharacters|];
      var r := DeleteFavoriteCharacter(s1, peopleId);
      && r.result.Success?
      && (FindFavoriteCharacter(s, peopleId).None? ==> r.store == s)
      && (FindFavoriteCharacter(s, peopleId).Some? ==>
            r.store == s.(favoriteCharacters :=
              RemoveAt(s.favoriteCharacters, FindFavoriteCharacter(s, peopleId).value) + [f]))
  {
    var n := |s.favoriteCharacters|;
    var f := s1.favoriteCharacters[n];
    assert s1.favoriteCharacters == s.favoriteCharacters + [f];
    match FindFavoriteCharacter(s, peopleId)
    case None =>
      assert FindFavoriteCharacter(s1, peopleId) == Some(n);
      RemoveLast(s.favoriteCharacters, f);
    case Some(k0) =>
      assert FindFavoriteCharacter(s1, peopleId) == Some(k0);
      assert RemoveAt(s1.favoriteCharacters, k0) == RemoveAt(s.favoriteCharacters, k0) + [f];
  }

  lemma {:induction false} AddThenDeleteFavoriteCharacter(s: Store, peopleId: nat)
    requires AddFavoriteCharacter(s, peopleId).result.Success?
    ensures var s1 := AddFavoriteCharacter(s, peopleId).store;
      var f := s1.favoriteCharacters[|s.favoriteCharacters|];
      var r := DeleteFavoriteCharacter(s1, peopleId);
      && r.result.Success?
      && (FindFavoriteCharacter(s, peopleId).None? ==> r.store == s)
      && (FindFavoriteCharacter(s, peopleId).Some? ==>
            r.store == s.(favoriteCharacters :=
              RemoveAt(s.favoriteCharacters, FindFavoriteCharacter(s, peopleId).value) + [f]))
  {
    DeleteAfterAppendedFavoriteCharacter(s, AddFavoriteCharacter(s, peopleId).store, peopleId);
  }

  /** The planet counterpart of `DeleteAfterAppendedFavoriteCharacter`. */
  lemma {:induction false} DeleteAfterAppendedFavoritePlanet(s: Store, s1: Store, planetId: nat)
    requires AppendedOne(s.favoritePlanets, s1.favoritePlanets)
    requires s1.(favoritePlanets := s.favoritePlanets) == s
    requires s1.favoritePlanets[|s.favoritePlanets|].planetId == planetId
    ensures var f := s1.favoritePlanets[|s.favoritePlanets|];
      var r := DeleteFavoritePlanet(s1, planetId);
      && r.result.Success?
      && (FindFavoritePlanet(s, planetId).None? ==> r.store == s)
      && (FindFavoritePlanet(s, planetId).Some? ==>
            r.store == s.(favoritePlanets :=
              RemoveAt(s.favoritePlanets, FindFavoritePlanet(s, planetId).value) + [f]))
  {
    var n := |s.favoritePlanets|;
    var f := s1.favoritePlanets[n];
    assert s1.favoritePlanets == s.favoritePlanets + [f];
    match FindFavoritePlanet(s, planetId)
    case None =>
      assert FindFavoritePlanet(s1, planetId) == Some(n);
      RemoveLast(s.favoritePlanets, f);
    case Some(k0) =>
      assert FindFavoritePlanet(s1, planetId) == Some(k0);
      assert RemoveAt(s1.favoritePlanets, k0) == RemoveAt(s.favoritePlanets, k0) + [f];
  }

  lemma {:induction false} AddThenDeleteFavoritePlanet(s: Store, planetId: nat)
    requires AddFavoritePlanet(s, planetId).result.Success?
    ensures var s1 := AddFavoritePlanet(s, planetId).store;
      var f := s1.favoritePlanets[|s.favoritePlanets|];
      var r := DeleteFavoritePlanet(s1, planetId);
      && r.result.Success?
      && (FindFavoritePlanet(s, planetId).None? ==> r.store == s)
      && (FindFavoritePlanet(s, planetId).Some? ==>
            r.store == s.(favoritePlanets :=
              RemoveAt(s.favoritePlanets, FindFavoritePlanet(s, planetId).value) + [f]))
  {
    DeleteAfterAppendedFavoritePlanet(s, AddFavoritePlanet(s, planetId).store, planetId);
  }

  /** Whether the favourites listing of `s` shows character `peopleId`. */
  predicate ListsFavoriteCharacter(s: Store, peopleId: nat)
  {
    var listed := GetUserFavorites(s).result.value.favoriteCharacters;
    exists i :: 0 <= i < |listed| && listed[i]["character"] == Int(peopleId)
  }

  /** The listing shows a character iff some favourite row names it. */
  lemma {:induction false} ListsFavoriteCharacterIff(s: Store, peopleId: nat)
    ensures ListsFavoriteCharacter(s, peopleId) <==> FindFavoriteCharacter(s, peopleId).Some?
  {
    var listed := GetUserFavorites(s).result.value.favoriteCharacters;
    match FindFavoriteCharacter(s, peopleId)
    case None =>
      forall i | 0 <= i < |listed| ensures listed[i]["character"] != Int(peopleId) {
        assert listed[i] == SerializeFavoriteCharacter(s.favoriteCharacters[i]);
      }
    case Some(k) =>
      assert listed[k] == SerializeFavoriteCharacter(s.favoriteCharacters[k]);
  }

  /**
   * After adding a favourite character and deleting that target, the
   * favourites listing still shows the target iff it had a favourite before.
   */
  lemma {:induction false} FavoriteListedAfterAddThenDelete(s: Store, peopleId: nat)
    requires AddFavoriteCharacter(s, peopleId).result.Success?
    ensures var s1 := AddFavoriteCharacter(s, peopleId).store;
      ListsFavoriteCharacter(DeleteFavoriteCharacter(s1, peopleId).store, peopleId) <==> ListsFavoriteCharacter(s, peopleId)
  {
    AddThenDeleteFavoriteCharacter(s, peopleId);
    var s1 := AddFavoriteCharacter(s, peopleId).store;
    var s2 := DeleteFavoriteCharacter(s1, peopleId).store;
    ListsFavoriteCharacterIff(s, peopleId);
    ListsFavoriteCharacterIff(s2, peopleId);
    if FindFavoriteCharacter(s, peopleId).Some? {
      var last := |s2.favoriteCharacters| - 1;
      assert s2.favoriteCharacters[last] == s1.favoriteCharacters[|s.favoriteCharacters|];
      assert s2.favoriteCharacters[last].characterId == peopleId;
    }
  }

  /** Whether the favourites listing of `s` shows planet `planetId`. */
  predicate ListsFavoritePlanet(s: Store, planetId: nat)
  {
    var listed := GetUserFavorites(s).result.value.favoritePlanets;
    exists i :: 0 <= i < |listed| && listed[i]["planet"] == Int(planetId)
  }

  /** The listing shows a planet iff some favourite row names it. */
  lemma {:induction false} ListsFavoritePlanetIff(s: Store, planetId: nat)
    ensures ListsFavoritePlanet(s, planetId) <==> FindFavoritePlanet(s, planetId).Some?
  {
    var listed := GetUserFavorites(s).result.value.favoritePlanets;
    match FindFavoritePlanet(s, planetId)
    case None =>
      forall i | 0 <= i < |listed| ensures listed[i]["planet"] != Int(planetId) {
        assert listed[i] == SerializeFavoritePlanet(s.favoritePlanets[i]);
      }
    case Some(k) =>
      assert listed[k] == SerializeFavoritePlanet(s.favoritePlanets[k]);
  }

  /**
   * After adding a favourite planet and deleting that target, the favourites
   * listing still shows the target iff it had a favourite before.
   */
  lemma {:induction false} FavoritePlanetListedAfterAddThenDelete(s: Store, planetId: nat)
    requires AddFavoritePlanet(s, planetId).result.Success?
    ensures var s1 := AddFavoritePlanet(s, planetId).store;
      ListsFavoritePlanet(DeleteFavoritePlanet(s1, planetId).store, planetId) <==> ListsFavoritePlanet(s, planetId)
  {
    AddThenDeleteFavoritePlanet(s, planetId);
    var s1 := AddFavoritePlanet(s, planetId).store;
    var s2 := DeleteFavoritePlanet(s1, planetId).store;
    ListsFavoritePlanetIff(s, planetId);
    ListsFavoritePlanetIff(s2, planetId);
    if FindFavoritePlanet(s, planetId).Some? {
      var last := |s2.favoritePlanets| - 1;
      assert s2.favoritePlanets[last] == s1.favoritePlanets[|s.favoritePlanets|];
      assert s2.favoritePlanets[last].planetId == planetId;
    }
  }

  // ---------------------------------------------------------------------------
  // The listing and the lookup agree
  // ---------------------------------------------------------------------------

  /** Every row listed by `GET /people` is the one `GET /people/<id>` returns, and conversely. */
  lemma {:induction false} CharacterListAndLookupAgree(s: Store, peopleId: nat)
    requires Distinct(s.characters, CharacterId)
    ensures GetCharacter(s, peopleId).result.Success? ==>
      GetCharacter(s, peopleId).result.value in GetCharacters(s).result.value
    ensures forall i :: 0 <= i < |s.characters| && s.characters[i].id == peopleId ==>
      GetCharacter(s, peopleId).result == Success(GetCharacters(s).result.value[i])
  {
    var all := GetCharacters(s).result.value;
    match FindCharacter(s, peopleId)
    case None =>
    case Some(k) =>
      assert all[k] == SerializeCharacter(s.characters[k]);
      forall i | 0 <= i < |s.characters| && s.characters[i].id == peopleId
        ensures i == k
      {
        assert CharacterId(s.characters[i]) == CharacterId(s.characters[k]);
      }
  }

  /** Every row listed by `GET /planet` is the one `GET /planet/<id>` returns, and conversely. */
  lemma {:induction false} PlanetListAndLookupAgree(s: Store, planetId: nat)
    requires Distinct(s.planets, PlanetId)
    ensures GetPlanet(s, planetId).result.Success? ==>
      GetPlanet(s, planetId).result.value in GetPlanets(s).result.value
    ensures forall i :: 0 <= i < |s.planets| && s.planets[i].id == planetId ==>
      GetPlanet(s, planetId).result == Success(GetPlanets(s).result.value[i])
  {
    var all := GetPlanets(s).result.value;
    match FindPlanet(s, planetId)
    case None =>
    case Some(k) =>
      assert all[k] == SerializePlanet(s.planets[k]);
      forall i | 0 <= i < |s.planets| && s.planets[i].id == planetId
        ensures i == k
      {
        assert PlanetId(s.planets[i]) == PlanetId(s.planets[k]);
      }
  }
}
