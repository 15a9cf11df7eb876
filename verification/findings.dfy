/**
 * Two defects of the delete handlers, each shown on a concrete input: the
 * handler as written against the corrected handler the rest of the model uses.
 */
module Findings {
  import opened Wrappers
  import opened Json
  import opened Tables
  import opened Models
  import opened Database
  import opened Handlers

  /**
   * A DELETE whose JSON body is the literal `null`: the handlers index the body before their
   * missing-body check, so the request fails with an uncaught exception (500)
   * instead of the 400 the check was written to give.
   */
  lemma DeleteWithNullBody(s: Store)
    ensures DeletePlanetAsWritten(s, None).result == Failure(Crash(BodyNotIndexable))
    ensures DeletePlanetAsWritten(s, None).Status() == 500
    ensures DeletePeopleAsWritten(s, None).result == Failure(Crash(BodyNotIndexable))
    ensures DeletePeopleAsWritten(s, None).Status() == 500
    ensures DeletePlanet(s, None) == Reply(Failure(MissingBody), s) && DeletePlanet(s, None).Status() == 400
    ensures DeletePeople(s, None) == Reply(Failure(MissingBody), s) && DeletePeople(s, None).Status() == 400
  {
  }

  /**
   * A DELETE naming an integer id that no row has: the not-found reply adds
   * the id to a string, which fails for an integer, so the request ends in a
   * 500 instead of the 400 not-found reply.
   */
  lemma DeleteUnknownIntegerId(s: Store, id: int)
    requires id !in Keys(s.planets, PlanetId) && id !in Keys(s.characters, CharacterId)
    ensures DeletePlanetAsWritten(s, Some(map["id" := Int(id)])).result == Failure(Crash(IdNotString))
    ensures DeletePlanetAsWritten(s, Some(map["id" := Int(id)])).Status() == 500
    ensures DeletePeopleAsWritten(s, Some(map["id" := Int(id)])).result == Failure(Crash(IdNotString))
    ensures DeletePeopleAsWritten(s, Some(map["id" := Int(id)])).Status() == 500
    ensures DeletePlanet(s, Some(map["id" := Int(id)])) == Reply(Failure(NotFound), s)
    ensures DeletePeople(s, Some(map["id" := Int(id)])) == Reply(Failure(NotFound), s)
  {
  }

  /** The concrete instance: deleting planet 1 from the empty store. */
  lemma DeletePlanetOneFromEmpty()
    ensures DeletePlanetAsWritten(EmptyStore, Some(map["id" := Int(1)])).Status() == 500
    ensures DeletePlanet(EmptyStore, Some(map["id" := Int(1)])).Status() == 400
  {
    DeleteUnknownIntegerId(EmptyStore, 1);
  }
}
