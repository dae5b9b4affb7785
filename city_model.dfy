/**
 * The City document of server/models/City.js: an owner reference, a name and a
 * favourite flag, plus the document id the store assigns.
 */
module CityModel {
  import opened Wrappers

  /** Document ids (ObjectId) of users and of cities. */
  type UserId = nat
  type CityId = nat

  datatype City = City(id: CityId, userId: UserId, cityName: string, isFavorite: bool)

  /**
   * Creating a document from the schema: `userId` and `cityName` are required
   * (a required String also refuses ""), `isFavorite` defaults to false.
   * None is the validation error.
   */
  function Create(id: CityId, userId: Option<UserId>, cityName: Option<string>, isFavorite: Option<bool>): (r: Option<City>)
    ensures r.Some? <==> userId.Some? && cityName.Some? && cityName.value != []
    ensures r.Some? ==> r.value.id == id && r.value.userId == userId.value && r.value.cityName == cityName.value
    ensures r.Some? ==> (r.value.isFavorite <==> isFavorite == Some(true))
  {
    if userId.None? || cityName.None? || cityName.value == [] then None
    else
      var favorite := match isFavorite case Some(b) => b case None => false;
      Some(City(id, userId.value, cityName.value, favorite))
  }
}
