/**
 * The four city routes of server/server.js as transitions of the city
 * collection: each takes the collection and the authenticated caller's id and
 * yields the response and the new collection. The `Store` class of module
 * CityStore performs the same transitions in place.
 */
module CityService {
  import opened Wrappers
  import opened Http
  import opened Text
  import opened Query
  import opened CityModel

  /** The city collection in natural order, and the id the next created document gets. */
  datatype Db = Db(cities: seq<City>, nextId: CityId)

  /** A handler's response together with the collection it leaves behind. */
  datatype Step<T> = Step(response: Response<T>, db: Db)

  const CityExists: string := "City already exists"
  const CityNotFound: string := "City not found"
  const CityDeleted: string := "City deleted successfully"
  const AddFailed: string := "Error adding city"
  const FavoriteFailed: string := "Error updating favorite"
  const DeleteFailed: string := "Error deleting city"

  /** What every collection reachable through the handlers satisfies: ids are distinct and
      below nextId, names are non-empty and in normal form, and no owner has two cities of
      the same name. */
  predicate Valid(db: Db) {
    && (forall i :: 0 <= i < |db.cities| ==>
          db.cities[i].id < db.nextId && db.cities[i].cityName != []
          && IsNormal(db.cities[i].cityName))
    && (forall i, j :: 0 <= i < j < |db.cities| ==> db.cities[i].id != db.cities[j].id)
    && (forall i, j :: 0 <= i < j < |db.cities| ==>
          db.cities[i].userId != db.cities[j].userId || db.cities[i].cityName != db.cities[j].cityName)
  }

  /** The owner has a city stored under this name. */
  predicate HasCity(db: Db, owner: UserId, name: string) {
    exists i :: 0 <= i < |db.cities| && db.cities[i].userId == owner && db.cities[i].cityName == name
  }

  /** The owner has a city with this id. */
  predicate Owns(db: Db, owner: UserId, id: CityId) {
    exists i :: 0 <= i < |db.cities| && db.cities[i].id == id && db.cities[i].userId == owner
  }

  /** The query filters of the handlers: {userId, cityName}, {userId} and {_id, userId}. */
  function NameFilter(owner: UserId, name: string): City -> bool {
    (c: City) => c.userId == owner && c.cityName == name
  }

  function OwnerFilter(owner: UserId): City -> bool {
    (c: City) => c.userId == owner
  }

  function IdFilter(owner: UserId, id: CityId): City -> bool {
    (c: City) => c.id == id && c.userId == owner
  }

  /**
   * POST /cities. An absent or non-string name fails in `trim` (500); the normalized
   * name already stored for the caller is refused (400); a name that normalizes to ""
   * fails the schema's `required` check (500); otherwise a new, non-favourite city
   * owned by the caller is appended.
   */
  function AddCity(db: Db, owner: UserId, cityName: Option<string>): (s: Step<City>)
    ensures s.response.Ok? || s.response == BadRequest(CityExists) || s.response == ServerError(AddFailed)
    ensures !s.response.Ok? ==> s.db == db
    ensures s.response == BadRequest(CityExists) <==>
              cityName.Some? && HasCity(db, owner, Normalize(cityName.value))
    ensures s.response.Ok? <==>
              cityName.Some? && Normalize(cityName.value) != [] && !HasCity(db, owner, Normalize(cityName.value))
    ensures s.response.Ok? ==>
              && s.response.value == City(db.nextId, owner, Normalize(cityName.value), false)
              && s.db == Db(db.cities + [s.response.value], db.nextId + 1)
  {
    if cityName.None? then Step(ServerError(AddFailed), db)
    else
      var formatted := Normalize(cityName.value);
      match FindFirst(db.cities, NameFilter(owner, formatted))
      case Some(_) => Step(BadRequest(CityExists), db)
      case None =>
        match Create(db.nextId, Some(owner), Some(formatted), None)
        case None => Step(ServerError(AddFailed), db)
        case Some(c) => Step(Ok(c), Db(db.cities + [c], db.nextId + 1))
  }

  /** GET /cities: exactly the caller's cities. */
  function ListCities(db: Db, owner: UserId): (r: seq<City>)
    ensures forall c :: c in r <==> c in db.cities && c.userId == owner
  {
    FindAll(db.cities, OwnerFilter(owner))
  }

  /**
   * PATCH /cities/:id/favorite. A malformed id fails the cast (500); an id the caller
   * does not own, absent or someone else's, is 404; otherwise that city's flag flips,
   * nothing else changes, and the updated city is returned.
   */
  function ToggleFavorite(db: Db, owner: UserId, id: Option<CityId>): (s: Step<City>)
    ensures s.response.Ok? || s.response == NotFound(CityNotFound) || s.response == ServerError(FavoriteFailed)
    ensures !s.response.Ok? ==> s.db == db
    ensures s.response == ServerError(FavoriteFailed) <==> id.None?
    ensures s.response.Ok? <==> id.Some? && Owns(db, owner, id.value)
    ensures s.response.Ok? ==>
              exists i :: (0 <= i < |db.cities| && db.cities[i].id == id.value && db.cities[i].userId == owner
                           && s.response.value == db.cities[i].(isFavorite := !db.cities[i].isFavorite)
                           && s.db == db.(cities := db.cities[i := s.response.value]))
  {
    if id.None? then Step(ServerError(FavoriteFailed), db)
    else match FindFirst(db.cities, IdFilter(owner, id.value))
      case None => Step(NotFound(CityNotFound), db)
      case Some(i) =>
        var city := db.cities[i].(isFavorite := !db.cities[i].isFavorite);
        Step(Ok(city), db.(cities := db.cities[i := city]))
  }

  /**
   * DELETE /cities/:id. A malformed id fails the cast (500); an id the caller does not
   * own is 404; otherwise exactly that city is removed.
   */
  function DeleteCity(db: Db, owner: UserId, id: Option<CityId>): (s: Step<string>)
    ensures s.response.Ok? || s.response == NotFound(CityNotFound) || s.response == ServerError(DeleteFailed)
    ensures !s.response.Ok? ==> s.db == db
    ensures s.response == ServerError(DeleteFailed) <==> id.None?
    ensures s.response.Ok? <==> id.Some? && Owns(db, owner, id.value)
    ensures s.response.Ok? ==> s.response.value == CityDeleted
    ensures s.response.Ok? ==>
              exists i :: (0 <= i < |db.cities| && db.cities[i].id == id.value && db.cities[i].userId == owner
                           && s.db == db.(cities := db.cities[..i] + db.cities[i + 1..]))
  {
    if id.None? then Step(ServerError(DeleteFailed), db)
    else match FindFirst(db.cities, IdFilter(owner, id.value))
      case None => Step(NotFound(CityNotFound), db)
      case Some(i) => Step(Ok(CityDeleted), db.(cities := db.cities[..i] + db.cities[i + 1..]))
  }
}
