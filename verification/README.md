# Star Wars API record store, in Dafny

This project models the data layer and request handlers of a small Flask/SQLAlchemy
REST API. The API serves users, characters ("people"), planets and the users' favourite
characters and planets. The database is one immutable `Store` value holding the five
tables as sequences of rows in storage order. Each handler is a pure function from the
store and the request's input (path id or JSON body) to a `Reply`. A reply carries
either the payload or an error, and the store as it is after the request.

Modules, in dependency order:

- `Wrappers`: `Option` and `Result`.
- `Json`: JSON values (`Null`, `Int`, `Str`), objects, and request bodies (`None` means the JSON body is the literal `null`).
- `Tables`: generic table operations. `FirstIndex` is what a filtered `.first()` returns. `RemoveAt` deletes one row. `NextId` is the id the database assigns. `Distinct` is a UNIQUE constraint.
- `Models`: the five row types and their `serialize` dictionaries.
- `Database`: the store, the schema invariants (unique keys, unique columns, valid foreign keys), and the inserts through which the database enforces the UNIQUE constraints.
- `Handlers`: one function per route handler, plus the validation they share.
- `Properties`: lemmas relating several handlers (create then get, create then delete, favourite round trips, list and lookup agreement).
- `Integrity`: which handlers keep a valid store valid, and exactly when a delete leaves a dangling reference.
- `Findings`: the two delete-handler defects, each on a concrete input.
- `Scenarios`: concrete request sequences.

Errors are tags, not message text:

- `MissingBody`, `MissingField(f)` and `NotFound` are the errors a handler answers itself, with status 400.
- `Rejected(v)` is a commit the database refuses. `Crash(f)` is a Python exception the handler raises. Neither is caught, so both end in status 500.

Every failing request leaves the store as it was. Each handler states this in its contract.

In these places the model follows the code rather than the intended behaviour:

- A DELETE naming an integer id that does not exist ends in an exception in the code, not in a 400. This is logged as a finding.
- Creating a row whose unique name is taken is not handled by the code. The database error escapes, so the model answers `Rejected(DuplicateValue("name"))` with status 500.
- `GET /people/<id>` does not return the hair colour. So "a created character reads back with the same values" is proved for the five attributes the serialiser emits.

## Model

| member | source | states |
|---|---|---|
| `Models.SerializeUser` | src/models.py:20-27 | emits exactly id, username, email, `singup date` and name; never `password` or `is_active` |
| `Models.SerializeUserExposes` | src/models.py:20-27 | two users serialise alike iff they agree on id, username, email, signup date and name |
| `Models.SerializeUserHidesSecrets` | src/models.py:11-27 | changing the password or the active flag never changes the serialised user |
| `Models.SerializePlanet` | src/models.py:41-49 | emits every column, with the climate under `clima` and no `climate` key |
| `Models.SerializePlanetInjective` | src/models.py:30-49 | two planets serialise alike iff they are the same row, so no column is dropped |
| `Models.SerializeCharacter` | src/models.py:65-73 | emits id, name, genre, race, `skin color` and `eye color`; no hair colour and no planet |
| `Models.SerializeCharacterExposes` | src/models.py:51-73 | two characters serialise alike iff they agree on the six emitted columns; hair colour and planet are invisible |
| `Models.SerializeFavoriteCharacter` | src/models.py:83-88 | emits exactly the row id, the user id and the character id |
| `Models.SerializeFavoritePlanet` | src/models.py:98-103 | emits exactly the row id, the user id and the planet id |
| `Models.SerializeFavoritesInjective` | src/models.py:75-103 | two favourite rows serialise alike iff they are the same row |
| `Tables.FirstIndex` | src/app.py:139 | the index returned is the first row satisfying the filter; none is returned iff no row satisfies it |
| `Tables.NextId` | src/models.py:31 | the id given to a new row is taken by no row of the table; it is 1 for an empty table and one past the largest id otherwise |
| `Database.InsertUser` | src/models.py:9-15 | a user is committed iff its id, username and email are all free; a commit keeps a valid store valid and changes only the user table |
| `Database.InsertPlanet` | src/models.py:31-32 | a planet is committed iff its id and name are free; a commit keeps a valid store valid |
| `Database.InsertCharacter` | src/models.py:52-61 | a character is committed iff its id and name are free; with a valid or absent planet reference, a commit keeps a valid store valid |
| `Database.KeysUnique` | src/models.py:9-91 | no two rows of a table share a primary key, in each of the five tables |
| `Database.ColumnsUnique` | src/models.py:10-53 | no two users share a username or an email, no two planets a name, no two characters a name |
| `Database.ReferencesValid` | src/models.py:61-95 | a character's planet, when set, is an existing planet; every favourite names an existing user and an existing character or planet |
| `Database.Valid` | src/models.py:9-95 | a store satisfies all the schema's constraints: unique keys, unique columns and valid foreign keys |
| `Handlers.CheckBody` | src/app.py:71-84 | passes iff the body is an object holding every required field; otherwise it names the `null` body or the first missing field in check order |
| `Handlers.CheckTypes` | src/models.py:33-36 | passes iff every required value fits its NOT NULL column, an integer only within the 64-bit INTEGER range; otherwise it names a misfit column as null, out of range or mistyped |
| `Handlers.NewCharacter` | src/app.py:86-93 | the character built from a well-typed body carries the body's name, genre, race, skin, hair and eye colours, the given id and no planet |
| `Handlers.NewPlanet` | src/app.py:173-179 | the planet built from a well-typed body carries the body's name, climate, terrain, population and mass, and the given id |
| `Handlers.Reply.Status` | src/app.py:67-97 | a reply's status is 200 iff it succeeded, 400 iff the handler answered the error itself, and 500 iff an exception or a refused commit escaped |
| `Handlers.FindCharacter` | src/app.py:116 | finds the first character with the id, and none iff no character has it |
| `Handlers.FindPlanet` | src/app.py:202 | finds the first planet with the id, and none iff no planet has it |
| `Handlers.FindFavoriteCharacter` | src/app.py:139 | finds the first favourite naming the character, whoever owns it, and none iff none names it |
| `Handlers.FindFavoritePlanet` | src/app.py:225 | finds the first favourite naming the planet, whoever owns it, and none iff none names it |
| `Handlers.GetUsers` | src/app.py:39-44 | returns every user serialised, in order, one per row; no entry has a password; the store is unchanged |
| `Handlers.GetCharacters` | src/app.py:60-65 | returns every character serialised, in order, one per row; the store is unchanged |
| `Handlers.GetPlanets` | src/app.py:149-154 | returns every planet serialised, in order, one per row; the store is unchanged |
| `Handlers.GetUserFavorites` | src/app.py:46-58 | returns both favourite tables in full, serialised, whoever owns the rows; the store is unchanged |
| `Handlers.GetCharacter` | src/app.py:114-121 | succeeds iff a character has the id and returns the first such one serialised; otherwise NotFound; the store is unchanged |
| `Handlers.GetPlanet` | src/app.py:200-207 | succeeds iff a planet has the id and returns the first such one serialised; otherwise NotFound; the store is unchanged |
| `Handlers.AddPeople` | src/app.py:67-97 | a `null` body or the first missing field of name, genre, race, skin_color, hair_color, eye_color is refused; a null or mistyped value or a taken name is refused by the database; it succeeds otherwise, appending one character that carries the body's six values, no planet and a fresh id; errors leave the store unchanged |
| `Handlers.AddPlanets` | src/app.py:156-183 | a `null` body or the first missing field of name, climate, terrain, population, mass is refused; a null or mistyped value, a population or mass outside the 64-bit range, or a taken name is refused by the database; it succeeds otherwise, appending one planet carrying the body's five values and a fresh id; errors leave the store unchanged |
| `Handlers.AddFavoriteCharacter` | src/app.py:123-135 | NotFound iff no character has the id; a crash when there are no users; otherwise it appends exactly one favourite owned by the first user for that character, with no duplicate check |
| `Handlers.AddFavoritePlanet` | src/app.py:209-221 | NotFound iff no planet has the id; a crash when there are no users; otherwise it appends exactly one favourite owned by the first user for that planet, with no duplicate check |
| `Handlers.DeleteFavoriteCharacter` | src/app.py:137-147 | succeeds iff some favourite names the character, and then removes exactly the first such row, whoever owns it; otherwise NotFound with the store unchanged |
| `Handlers.DeleteFavoritePlanet` | src/app.py:223-233 | succeeds iff some favourite names the planet, and then removes exactly the first such row, whoever owns it; otherwise NotFound with the store unchanged |
| `Handlers.DeletePeopleAsWritten` | src/app.py:99-112 | a `null` body or no `id` crashes; an id no character has is NotFound only when it is a string and crashes otherwise; on success it removes exactly that character and nothing else |
| `Handlers.DeletePeople` | src/app.py:99-112 | the corrected handler: a `null` body is MissingBody and an unknown id is NotFound; on success it removes exactly the character with the body's id and no favourite |
| `Handlers.DeletePlanetAsWritten` | src/app.py:185-198 | a `null` body or no `id` crashes; an id no planet has is NotFound only when it is a string and crashes otherwise; on success it removes exactly that planet and nothing else |
| `Handlers.DeletePlanet` | src/app.py:185-198 | the corrected handler: a `null` body is MissingBody and an unknown id is NotFound; on success it removes exactly the planet with the body's id, and no character or favourite |
| `Properties.AddPeopleThenGet` | src/app.py:86-121 | after a successful create, a lookup of the new id returns the new character, whose emitted values are the body's |
| `Properties.AddPlanetsThenGet` | src/app.py:173-207 | after a successful create, a lookup of the new id returns the new planet, whose values are the body's |
| `Properties.AddPeopleThenDelete` | src/app.py:86-112 | deleting a just-created character by its id succeeds and restores the store exactly |
| `Properties.AddPlanetsThenDelete` | src/app.py:173-198 | deleting a just-created planet by its id succeeds and restores the store exactly |
| `Properties.AddThenDeleteFavoriteCharacter` | src/app.py:123-147 | after adding a favourite character, deleting that target succeeds; it restores the store iff the target had no favourite before; otherwise it removes the oldest one and the new row stays |
| `Properties.AddThenDeleteFavoritePlanet` | src/app.py:209-233 | the same for favourite planets |
| `Properties.ListsFavoriteCharacterIff` | src/app.py:46-58 | the favourites listing shows a character iff some favourite row, of any user, names it |
| `Properties.FavoriteListedAfterAddThenDelete` | src/app.py:46-147 | after adding then deleting a favourite character, the listing still shows that character iff it was shown before |
| `Properties.ListsFavoritePlanetIff` | src/app.py:46-58 | the favourites listing shows a planet iff some favourite row, of any user, names it |
| `Properties.FavoritePlanetListedAfterAddThenDelete` | src/app.py:46-231 | after adding then deleting a favourite planet, the listing still shows that planet iff it was shown before |
| `Properties.CharacterListAndLookupAgree` | src/app.py:60-121 | with unique ids, each listed character is exactly what the lookup of its id returns, and every lookup result is listed |
| `Properties.PlanetListAndLookupAgree` | src/app.py:149-207 | with unique ids, each listed planet is exactly what the lookup of its id returns, and every lookup result is listed |
| `Integrity.AddPeopleKeepsValid` | src/app.py:86-95 | creating a character keeps unique keys, unique names and valid references |
| `Integrity.AddPlanetsKeepsValid` | src/app.py:173-181 | creating a planet keeps unique keys, unique names and valid references |
| `Integrity.AddFavoriteCharacterKeepsValid` | src/app.py:123-133 | adding a favourite character keeps the store valid: the new row references an existing user and character |
| `Integrity.AddFavoritePlanetKeepsValid` | src/app.py:209-219 | adding a favourite planet keeps the store valid: the new row references an existing user and planet |
| `Integrity.DeleteFavoriteCharacterKeepsValid` | src/app.py:137-145 | removing a favourite character keeps the store valid |
| `Integrity.DeleteFavoritePlanetKeepsValid` | src/app.py:223-231 | removing a favourite planet keeps the store valid |
| `Integrity.DeletePlanetIntegrity` | src/app.py:185-198 | deleting a planet keeps keys and names unique; references stay valid iff no character lived on it and no favourite named it |
| `Integrity.DeletePeopleIntegrity` | src/app.py:99-112 | deleting a character keeps keys and names unique; references stay valid iff no favourite named it |
| `Findings.DeleteWithNullBody` | src/app.py:187-191 | with a `null` body, both deletes as written crash (500) while the corrected ones answer MissingBody (400) with the store unchanged |
| `Findings.DeleteUnknownIntegerId` | src/app.py:192-193 | with an integer id no row has, both deletes as written crash (500) while the corrected ones answer NotFound (400) |
| `Findings.DeletePlanetOneFromEmpty` | src/app.py:185-198 | deleting planet 1 from the empty store: 500 as written, 400 corrected |
| `Scenarios.PopulationOverflowScenario` | src/app.py:173-181 | a planet whose population is one past the largest 64-bit integer is refused as out of range, with status 500 and the store unchanged |
| `Scenarios.TatooineScenario` | src/app.py:156-183 | posting Tatooine to an empty store gives 200 and a planet list holding exactly Tatooine with id 1; posting it again is refused for its name |
| `Scenarios.MissingRaceScenario` | src/app.py:73-78 | a character body with name and genre but no race is answered MissingField("race") with status 400 |

## Left out

- `src/admin.py` is not part of this model. It generates the administration UI from a library's views and from live queries.
- App configuration, the database URL, migrations, CORS, the sitemap route, the `APIException` handler and the server start-up (src/app.py:14-37, src/app.py:236-238) are not modelled. They are plumbing around the handlers.
- Routing is not modelled. `delete_people` and `delete_planet` are both registered for `DELETE /planet`, and which one runs is up to the routing library. They are modelled as two separate functions.
- Sessions, commits and transactions are not modelled, nor what the ORM does to children's foreign keys when a parent is deleted. Only the rows a handler explicitly adds or deletes change.
- Message text is replaced by error tags. The `String(120)` length limits and how passwords are stored are not modelled.
- No handler creates users. Users come only from the initial store, and `InsertUser` models the database's UNIQUE checks on them.
- A request with no JSON body, or with a body that does not parse as JSON, is refused by the framework with a 400 or 415 before the handler runs. The model starts at the handler, so `None` stands only for a JSON body that is the literal `null`.
- JSON bodies are modelled as objects whose values are null, integers or strings. Booleans, floats, nested values and non-object bodies are not modelled.
- The database's type affinity is not modelled. A body value whose JSON type differs from the column's declared type is modelled as refused by the database, like a null.
- Handlers.AddPlanets: an INTEGER column holds a signed 64-bit integer, which is the SQLite range used when no database URL is configured (src/app.py:17-21). On PostgreSQL it holds a signed 32-bit integer, so a population or mass outside that range but inside 64 bits also ends in a 500 there. The model promises success for those values.
- Handlers.GetCharacter, Handlers.GetPlanet and the four favourite handlers: a path id of 2^63 or more overflows the driver when bound into the query, so the program answers 500. The model answers as for any other id, NotFound or success.
- Ids assigned by `NextId` are unbounded. Running out of 64-bit row ids is not modelled.
- In a delete body, only an integer equal to a row's id matches that row. A numeric string matching a row through the engine's coercion is not modelled.
- When a body has several bad values, or also a taken name, which violation the database reports first is the engine's choice. The model reports the first misfit column in check order.
- Ids come from `NextId`: one past the largest id in the table, which is how SQLite numbers an INTEGER PRIMARY KEY. PostgreSQL sequences never reuse ids. `Scenarios.TatooineScenario` relies on the exact numbering. `Properties.AddPeopleThenGet` and `Properties.AddPlanetsThenGet` also rely on the new id being non-negative. Every other lemma relies only on the new id being fresh.
- `.first()` without ORDER BY is modelled as the first row in insertion order. SQL does not guarantee that order.
- The favourite tables' `user_id` and the target columns are nullable in the schema. They are modelled as non-null integers because every handler sets them.
- Path ids are natural numbers, because the route converter accepts only unsigned integers.
- Properties.AddPeopleThenGet: requires every existing character id to be non-negative, so that the new id can be requested through the path.
- Properties.AddPlanetsThenGet: requires every existing planet id to be non-negative, for the same reason.

## Findings

| source | as written | input that shows it | evidently intended | confidence | as-written member | corrected member |
|---|---|---|---|---|---|---|
| src/app.py:101-105 | `delete_people` indexes the body with `['id']` before its missing-body check, so the check never runs | DELETE whose JSON body is `null` | answer 400 asking for a body | high; not executed | `Handlers.DeletePeopleAsWritten`, `Findings.DeleteWithNullBody` | `Handlers.DeletePeople` |
| src/app.py:187-191 | `delete_planet` indexes the body before its missing-body check | DELETE whose JSON body is `null` | answer 400 asking for a body | high; not executed | `Handlers.DeletePlanetAsWritten`, `Findings.DeleteWithNullBody` | `Handlers.DeletePlanet` |
| src/app.py:106-107 | the not-found reply adds the integer id to a string, which raises | body `{"id": 999}` with no character 999 | answer 400 not found | high; not executed | `Handlers.DeletePeopleAsWritten`, `Findings.DeleteUnknownIntegerId` | `Handlers.DeletePeople` |
| src/app.py:192-193 | the not-found reply adds the integer id to a string, which raises | body `{"id": 1}` on an empty store | answer 400 not found | high; not executed | `Handlers.DeletePlanetAsWritten`, `Findings.DeletePlanetOneFromEmpty` | `Handlers.DeletePlanet` |
