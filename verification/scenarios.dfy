/** Concrete request sequences on a small store. */
module Scenarios {
  import opened Wrappers
  import opened Json
  import opened Models
  import opened Database
  import opened Handlers

  const Tatooine: Object :=
    map["name" := Str("Tatooine"), "climate" := Str("arid"), "terrain" := Str("desert"),
        "population" := Int(200000), "mass" := Int(1)]

  const TatooineRow: Planet := Planet(1, "Tatooine", "arid", "desert", 200000, 1)

  const OnlyTatooine: Store := Store([], [TatooineRow], [], [], [])

  /** Tatooine with a population one past the largest 64-bit integer. */
  const Overpopulated: Object := Tatooine["population" := Int(0x8000_0000_0000_0000)]

  /** Every field of the overpopulated body fits its column except the population. */
  lemma OnlyPopulationMisfits()
    ensures Complete(Overpopulated, PlanetColumns)
    ensures forall i :: 0 <= i < |PlanetColumns| && !Fits(Overpopulated[PlanetColumns[i].0], PlanetColumns[i].1) ==>
      PlanetColumns[i].0 == "population"
  {
    forall i | 0 <= i < |PlanetColumns| && PlanetColumns[i].0 != "population"
      ensures Fits(Overpopulated[PlanetColumns[i].0], PlanetColumns[i].1)
    {
      assert i in {0, 1, 2, 4};
    }
  }

  /**
   * A population that does not fit a 64-bit integer cannot be stored: the
   * request ends in a 500 and the store is unchanged.
   */
  lemma PopulationOverflowScenario()
    ensures var r := AddPlanets(EmptyStore, Some(Overpopulated));
      && r == Reply(Failure(Rejected(OutOfRange("population"))), EmptyStore)
      && r.Status() == 500
  {
    OnlyPopulationMisfits();
    assert !Fits(Overpopulated["population"], Integer);
    assert !WellTyped(Overpopulated, PlanetColumns) by {
      assert PlanetColumns[3].0 == "population";
    }
  }

  lemma TatooineAdded()
    ensures AddPlanets(EmptyStore, Some(Tatooine)) == Reply(Success(()), OnlyTatooine)
  {
  }

  lemma TatooineRefusedTwice()
    ensures AddPlanets(OnlyTatooine, Some(Tatooine)) == Reply(Failure(Rejected(DuplicateValue("name"))), OnlyTatooine)
  {
  }

  /**
   * Posting Tatooine to an empty store answers 200, the planet list then holds
   * it under id 1, and posting it a second time is refused for its name.
   */
  lemma TatooineScenario()
    ensures var r := AddPlanets(EmptyStore, Some(Tatooine));
      && r.Status() == 200
      && GetPlanets(r.store).result.value == [SerializePlanet(TatooineRow)]
      && GetPlanets(r.store).result.value[0]["name"] == Str("Tatooine")
      && AddPlanets(r.store, Some(Tatooine)) == Reply(Failure(Rejected(DuplicateValue("name"))), r.store)
      && AddPlanets(r.store, Some(Tatooine)).Status() == 500
  {
    TatooineAdded();
    TatooineRefusedTwice();
  }

  /** A character body that stops after `name` and `genre` is refused for `race`, the next field checked. */
  lemma MissingRaceScenario(s: Store)
    ensures var body := Some(map["name" := Str("Luke"), "genre" := Str("male"), "eye_color" := Str("blue")]);
      AddPeople(s, body) == Reply(Failure(MissingField("race")), s) && AddPeople(s, body).Status() == 400
  {
  }
}
