/**
 * The city collection as the server holds it: one mutable table that the four
 * city routes of server/server.js update in place. Each method follows its
 * handler step by step and is proved to perform the transition that module
 * CityService defines, so every property proved there holds of the table.
 */
module CityStore {
  import opened Wrappers
  import opened Http
  import opened Text
  import opened Query
  import opened CityModel
  import CityService
  import CityProperties

  class Store {
    /** The documents in natural order, and the id the next created document gets. */
    var cities: seq<City>
    var nextId: CityId

    /** The table as a value. */
    function State(): CityService.Db
      reads this
    {
      CityService.Db(cities, nextId)
    }

    predicate Valid()
      reads this
    {
      CityService.Valid(State())
    }

    /** An empty collection. */
    constructor ()
      ensures Valid() && cities == [] && nextId == 0
    {
      cities := [];
      nextId := 0;
    }

    /** POST /cities: normalize the name, refuse a name the caller already has, else create. */
    method AddCity(owner: UserId, cityName: Option<string>) returns (response: Response<City>)
      requires Valid()
      modifies this
      ensures Valid()
      ensures CityService.Step(response, State()) == CityService.AddCity(old(State()), owner, cityName)
      ensures CityProperties.Frozen(old(State()), State())
    {
      CityProperties.AddCityKeepsValid(State(), owner, cityName);
      ghost var step := CityService.AddCity(State(), owner, cityName);
      if cityName.None? {
        return ServerError(CityService.AddFailed);
      }
      var formatted := Normalize(cityName.value);
      var existing := FindFirst(cities, CityService.NameFilter(owner, formatted));
      if existing.Some? {
        assert step == CityService.Step(BadRequest(CityService.CityExists), State());
        return BadRequest(CityService.CityExists);
      }
      var created := Create(nextId, Some(owner), Some(formatted), None);
      if created.None? {
        assert step == CityService.Step(ServerError(CityService.AddFailed), State());
        return ServerError(CityService.AddFailed);
      }
      assert step.response == Ok(created.value);
      cities := cities + [created.value];
      nextId := nextId + 1;
      response := Ok(created.value);
    }

    /** GET /cities: the caller's documents, in natural order. */
    method ListCities(owner: UserId) returns (r: seq<City>)
      ensures r == CityService.ListCities(State(), owner)
      ensures forall c :: c in r <==> c in cities && c.userId == owner
    {
      r := FindAll(cities, CityService.OwnerFilter(owner));
    }

    /** PATCH /cities/:id/favorite: find the caller's document with this id, flip its flag,
        save it and return it. */
    method ToggleFavorite(owner: UserId, id: Option<CityId>) returns (response: Response<City>)
      requires Valid()
      modifies this
      ensures Valid()
      ensures CityService.Step(response, State()) == CityService.ToggleFavorite(old(State()), owner, id)
      ensures CityProperties.Frozen(old(State()), State())
    {
      CityProperties.ToggleFavoriteKeepsValid(State(), owner, id);
      if id.None? {
        return ServerError(CityService.FavoriteFailed);
      }
      var found := FindFirst(cities, CityService.IdFilter(owner, id.value));
      if found.None? {
        return NotFound(CityService.CityNotFound);
      }
      var i := found.value;
      var city := cities[i];
      city := city.(isFavorite := !city.isFavorite);
      cities := cities[i := city];
      response := Ok(city);
    }

    /** DELETE /cities/:id: remove the caller's document with this id. */
    method DeleteCity(owner: UserId, id: Option<CityId>) returns (response: Response<string>)
      requires Valid()
      modifies this
      ensures Valid()
      ensures CityService.Step(response, State()) == CityService.DeleteCity(old(State()), owner, id)
      ensures CityProperties.Frozen(old(State()), State())
    {
      CityProperties.DeleteCityKeepsValid(State(), owner, id);
      if id.None? {
        return ServerError(CityService.DeleteFailed);
      }
      var found := FindFirst(cities, CityService.IdFilter(owner, id.value));
      if found.None? {
        return NotFound(CityService.CityNotFound);
      }
      var i := found.value;
      cities := cities[..i] + cities[i + 1..];
      response := Ok(CityService.CityDeleted);
    }
  }
}
