/**
 * What the city routes promise when they are used one after another: the
 * collection invariant is kept, an owner's name is stored once, owners do not
 * see or touch each other's cities, and only the favourite flag ever changes
 * in a stored city.
 */
module CityProperties {
  import opened Wrappers
  import opened Http
  import opened Text
  import opened Query
  import opened CityModel
  import opened CityService

  /** No handler rewrites the owner or the name of a city it keeps: a document of the new
      collection that has the id of a document of the old one has its owner and its name. */
  predicate Frozen(before: Db, after: Db) {
    forall i, j :: 0 <= i < |before.cities| && 0 <= j < |after.cities| && before.cities[i].id == after.cities[j].id ==>
      before.cities[i].userId == after.cities[j].userId && before.cities[i].cityName == after.cities[j].cityName
  }

  /** The collection of documents t, each of which is the document of db at position
      f(j), is valid and frozen with respect to db, when f picks distinct positions. Used for
      the handlers that rewrite or drop documents in place. */
  lemma KeptDocuments(db: Db, t: seq<City>, f: nat -> nat)
    requires Valid(db)
    requires forall j :: 0 <= j < |t| ==> f(j) < |db.cities|
    requires forall j, k :: 0 <= j < k < |t| ==> f(j) != f(k)
    requires forall j :: 0 <= j < |t| ==>
               t[j].id == db.cities[f(j)].id && t[j].userId == db.cities[f(j)].userId
               && t[j].cityName == db.cities[f(j)].cityName
    ensures Valid(Db(t, db.nextId)) && Frozen(db, Db(t, db.nextId))
  {
    forall j, k | 0 <= j < k < |t|
      ensures t[j].id != t[k].id
      ensures t[j].userId != t[k].userId || t[j].cityName != t[k].cityName
    {
      IdsDistinct(db, f(j), f(k));
    }
    forall i, j | 0 <= i < |db.cities| && 0 <= j < |t| && db.cities[i].id == t[j].id
      ensures db.cities[i].userId == t[j].userId && db.cities[i].cityName == t[j].cityName
    {
      if i != f(j) {
        IdsDistinct(db, i, f(j));
      }
    }
  }

  /** In a valid collection two positions hold two ids. */
  lemma IdsDistinct(db: Db, a: nat, b: nat)
    requires Valid(db)
    requires a < |db.cities| && b < |db.cities| && a != b
    ensures db.cities[a].id != db.cities[b].id
  {
    if b < a {
      assert db.cities[b].id != db.cities[a].id;
    }
  }

  /** Appending a document with a fresh id, a non-empty name and an (owner, name) pair not yet
      stored keeps the collection valid and the stored documents frozen. */
  lemma AppendKeepsValid(db: Db, c: City)
    requires Valid(db)
    requires c.id == db.nextId && c.cityName != [] && IsNormal(c.cityName)
    requires !HasCity(db, c.userId, c.cityName)
    ensures Valid(Db(db.cities + [c], db.nextId + 1)) && Frozen(db, Db(db.cities + [c], db.nextId + 1))
  {
    var t := db.cities + [c];
    var n := |db.cities|;
    assert t[n] == c;
    assert forall i :: 0 <= i < n ==> t[i] == db.cities[i];
    forall i, j | 0 <= i < j < |t|
      ensures t[i].id != t[j].id
      ensures t[i].userId != t[j].userId || t[i].cityName != t[j].cityName
    {
      if j == n {
        assert !(db.cities[i].userId == c.userId && db.cities[i].cityName == c.cityName);
      }
    }
    forall i, j | 0 <= i < n && 0 <= j < |t| && db.cities[i].id == t[j].id
      ensures db.cities[i].userId == t[j].userId && db.cities[i].cityName == t[j].cityName
    {
    }
  }

  /** Adding a city keeps the collection valid and leaves the stored documents alone. */
  lemma AddCityKeepsValid(db: Db, owner: UserId, cityName: Option<string>)
    requires Valid(db)
    ensures Valid(AddCity(db, owner, cityName).db)
    ensures Frozen(db, AddCity(db, owner, cityName).db)
  {
    var s := AddCity(db, owner, cityName);
    if s.response.Ok? {
      AppendKeepsValid(db, s.response.value);
    }
  }

  /** Toggling the favourite flag keeps the collection valid and changes no owner or name. */
  lemma ToggleFavoriteKeepsValid(db: Db, owner: UserId, id: Option<CityId>)
    requires Valid(db)
    ensures Valid(ToggleFavorite(db, owner, id).db)
    ensures Frozen(db, ToggleFavorite(db, owner, id).db)
  {
    var s := ToggleFavorite(db, owner, id);
    if s.response.Ok? {
      var k :| 0 <= k < |db.cities| && db.cities[k].id == id.value && db.cities[k].userId == owner
               && s.response.value == db.cities[k].(isFavorite := !db.cities[k].isFavorite)
               && s.db == db.(cities := db.cities[k := s.response.value]);
      FlipKeepsValid(db, k);
    }
  }

  /** Flipping the favourite flag of the document at position k keeps the collection valid
      and every owner and name frozen. */
  lemma FlipKeepsValid(db: Db, k: nat)
    requires Valid(db) && k < |db.cities|
    ensures var t := db.cities[k := db.cities[k].(isFavorite := !db.cities[k].isFavorite)];
            Valid(Db(t, db.nextId)) && Frozen(db, Db(t, db.nextId))
  {
    var t := db.cities[k := db.cities[k].(isFavorite := !db.cities[k].isFavorite)];
    KeptDocuments(db, t, j => j);
  }

  /** Removing the document at position k keeps the collection valid and the rest frozen. */
  lemma RemoveKeepsValid(db: Db, k: nat)
    requires Valid(db) && k < |db.cities|
    ensures var t := db.cities[..k] + db.cities[k + 1..];
            Valid(Db(t, db.nextId)) && Frozen(db, Db(t, db.nextId))
  {
    var t := db.cities[..k] + db.cities[k + 1..];
    var f := (j: nat) => if j < k then j else j + 1;
    forall j | 0 <= j < |t|
      ensures t[j] == db.cities[f(j)]
    {
    }
    KeptDocuments(db, t, f);
  }

  /** Deleting a city keeps the collection valid and leaves the remaining documents alone. */
  lemma DeleteCityKeepsValid(db: Db, owner: UserId, id: Option<CityId>)
    requires Valid(db)
    ensures Valid(DeleteCity(db, owner, id).db)
    ensures Frozen(db, DeleteCity(db, owner, id).db)
  {
    var s := DeleteCity(db, owner, id);
    if s.response.Ok? {
      var k :| 0 <= k < |db.cities| && db.cities[k].id == id.value && db.cities[k].userId == owner
               && s.db == db.(cities := db.cities[..k] + db.cities[k + 1..]);
      RemoveKeepsValid(db, k);
    }
  }

  /** A name the owner already holds is refused with 400, however it is spelled, as long as
      it normalizes to the stored name, and the collection stays as it is. */
  lemma AddCityRejectsDuplicate(db: Db, owner: UserId, first: string, second: string)
    requires Normalize(first) == Normalize(second)
    requires AddCity(db, owner, Some(first)).response.Ok?
    ensures var s := AddCity(db, owner, Some(first));
            AddCity(s.db, owner, Some(second)) == Step(BadRequest(CityExists), s.db)
  {
    var s := AddCity(db, owner, Some(first));
    assert s.db.cities[|db.cities|] == s.response.value;
  }

  /** A document appended for one owner does not change which names another owner has. */
  lemma HasCityAfterAppend(db: Db, c: City, nextId: CityId, other: UserId, name: string)
    requires c.userId != other
    ensures HasCity(Db(db.cities + [c], nextId), other, name) <==> HasCity(db, other, name)
  {
    var t := db.cities + [c];
    if HasCity(Db(t, nextId), other, name) {
      var i :| 0 <= i < |t| && t[i].userId == other && t[i].cityName == name;
      assert i < |db.cities| && db.cities[i] == t[i];
    }
    if HasCity(db, other, name) {
      var i :| 0 <= i < |db.cities| && db.cities[i].userId == other && db.cities[i].cityName == name;
      assert t[i] == db.cities[i];
    }
  }

  /** The duplicate check looks only at the caller's cities: whether another owner's add
      succeeds does not depend on what this owner added. */
  lemma AddCityScopedByOwner(db: Db, owner: UserId, other: UserId, name: Option<string>, otherName: Option<string>)
    requires owner != other
    ensures var s := AddCity(db, owner, name);
            AddCity(s.db, other, otherName).response.Ok? <==> AddCity(db, other, otherName).response.Ok?
  {
    var s := AddCity(db, owner, name);
    if otherName.Some? && s.response.Ok? {
      HasCityAfterAppend(db, s.response.value, s.db.nextId, other, Normalize(otherName.value));
    }
  }

  /** Two owners who do not hold a name yet can each add it, one after the other, and each
      gets a document of their own. */
  lemma TwoOwnersSameCity(db: Db, a: UserId, b: UserId, name: string)
    requires a != b && Normalize(name) != []
    requires !HasCity(db, a, Normalize(name)) && !HasCity(db, b, Normalize(name))
    ensures var s1 := AddCity(db, a, Some(name));
            var s2 := AddCity(s1.db, b, Some(name));
            && s1.response == Ok(City(db.nextId, a, Normalize(name), false))
            && s2.response == Ok(City(db.nextId + 1, b, Normalize(name), false))
  {
    var s1 := AddCity(db, a, Some(name));
    assert s1.response.Ok? && s1.db.nextId == db.nextId + 1;
    HasCityAfterAppend(db, s1.response.value, s1.db.nextId, b, Normalize(name));
  }

  /** After an add, each owner's list is the old list, extended by the new city for its owner. */
  lemma ListAfterAdd(db: Db, owner: UserId, cityName: Option<string>, viewer: UserId)
    ensures var s := AddCity(db, owner, cityName);
            ListCities(s.db, viewer) ==
              ListCities(db, viewer) + (if s.response.Ok? && viewer == owner then [s.response.value] else [])
  {
    var s := AddCity(db, owner, cityName);
    if s.response.Ok? {
      FindAllAppend(db.cities, s.response.value, OwnerFilter(viewer));
    }
  }

  /** A toggle by one owner changes nothing in another owner's list. */
  lemma ListAfterToggle(db: Db, owner: UserId, id: Option<CityId>, viewer: UserId)
    requires viewer != owner
    ensures ListCities(ToggleFavorite(db, owner, id).db, viewer) == ListCities(db, viewer)
  {
    var s := ToggleFavorite(db, owner, id);
    if s.response.Ok? {
      var k :| 0 <= k < |db.cities| && db.cities[k].id == id.value && db.cities[k].userId == owner
               && s.response.value == db.cities[k].(isFavorite := !db.cities[k].isFavorite)
               && s.db == db.(cities := db.cities[k := s.response.value]);
      FindAllUpdateUnmatched(db.cities, k, s.response.value, OwnerFilter(viewer));
    }
  }

  /** A delete by one owner changes nothing in another owner's list. */
  lemma ListAfterDelete(db: Db, owner: UserId, id: Option<CityId>, viewer: UserId)
    requires viewer != owner
    ensures ListCities(DeleteCity(db, owner, id).db, viewer) == ListCities(db, viewer)
  {
    var s := DeleteCity(db, owner, id);
    if s.response.Ok? {
      var k :| 0 <= k < |db.cities| && db.cities[k].id == id.value && db.cities[k].userId == owner
               && s.db == db.(cities := db.cities[..k] + db.cities[k + 1..]);
      FindAllRemoveUnmatched(db.cities, k, OwnerFilter(viewer));
    }
  }

  /** Toggling twice restores the collection; the second call succeeds exactly when the first
      did and hands back the city as it was before both. */
  lemma {:induction false} ToggleTwice(db: Db, owner: UserId, id: Option<CityId>)
    ensures var s1 := ToggleFavorite(db, owner, id);
            var s2 := ToggleFavorite(s1.db, owner, id);
            && s2.db == db
            && (s2.response.Ok? <==> s1.response.Ok?)
            && (s1.response.Ok? ==> s2.response.value.isFavorite == !s1.response.value.isFavorite)
  {
    var s1 := ToggleFavorite(db, owner, id);
    if id.Some? {
      var p := IdFilter(owner, id.value);
      match FindFirst(db.cities, p)
      case None =>
      case Some(k) =>
        var t := s1.db.cities;
        assert t == db.cities[k := db.cities[k].(isFavorite := !db.cities[k].isFavorite)];
        FindFirstSameMatches(db.cities, t, p);
        assert t[k := t[k].(isFavorite := !t[k].isFavorite)] == db.cities;
    }
  }

  /** The HTTP status each city route answers with: 400 only for a name the caller already
      has, 404 only for a well-formed id the caller does not own, 500 only for a missing or
      blank name or a malformed id, and 200 otherwise. */
  lemma StatusCodes(db: Db, owner: UserId, cityName: Option<string>, id: Option<CityId>)
    ensures var add := AddCity(db, owner, cityName).response;
            && (add.Status() == 400 <==> cityName.Some? && HasCity(db, owner, Normalize(cityName.value)))
            && (add.Status() == 500 <==>
                  cityName.None? || (Normalize(cityName.value) == [] && !HasCity(db, owner, [])))
            && (add.Status() == 200 || add.Status() == 400 || add.Status() == 500)
    ensures var toggle := ToggleFavorite(db, owner, id).response;
            && (toggle.Status() == 404 <==> id.Some? && !Owns(db, owner, id.value))
            && (toggle.Status() == 500 <==> id.None?)
            && (toggle.Status() == 200 || toggle.Status() == 404 || toggle.Status() == 500)
    ensures var delete := DeleteCity(db, owner, id).response;
            && (delete.Status() == 404 <==> id.Some? && !Owns(db, owner, id.value))
            && (delete.Status() == 500 <==> id.None?)
            && (delete.Status() == 200 || delete.Status() == 404 || delete.Status() == 500)
  {
  }

  /** A city of another owner cannot be toggled or deleted by the caller: both answer 404 and
      leave the collection as it is, exactly as for an id nobody has. */
  lemma ForeignCityNotFound(db: Db, owner: UserId, i: nat)
    requires Valid(db)
    requires i < |db.cities| && db.cities[i].userId != owner
    ensures ToggleFavorite(db, owner, Some(db.cities[i].id)) == Step(NotFound(CityNotFound), db)
    ensures DeleteCity(db, owner, Some(db.cities[i].id)) == Step(NotFound(CityNotFound), db)
  {
  }

  /** After a successful delete no owner has the id any more: deleting it again, or toggling
      it, answers 404 and changes nothing. */
  lemma DeleteTwice(db: Db, owner: UserId, id: CityId)
    requires Valid(db)
    requires DeleteCity(db, owner, Some(id)).response.Ok?
    ensures var s := DeleteCity(db, owner, Some(id));
            && (forall u :: !Owns(s.db, u, id))
            && DeleteCity(s.db, owner, Some(id)) == Step(NotFound(CityNotFound), s.db)
            && ToggleFavorite(s.db, owner, Some(id)) == Step(NotFound(CityNotFound), s.db)
  {
    var s := DeleteCity(db, owner, Some(id));
    var k :| 0 <= k < |db.cities| && db.cities[k].id == id && db.cities[k].userId == owner
             && s.db == db.(cities := db.cities[..k] + db.cities[k + 1..]);
    RemovedIdGone(db, k);
  }

  /** In a valid collection, removing the document at position k leaves no document with
      its id. */
  lemma RemovedIdGone(db: Db, k: nat)
    requires Valid(db) && k < |db.cities|
    ensures var t := db.cities[..k] + db.cities[k + 1..];
            forall j :: 0 <= j < |t| ==> t[j].id != db.cities[k].id
  {
    var t := db.cities[..k] + db.cities[k + 1..];
    forall j | 0 <= j < |t|
      ensures t[j].id != db.cities[k].id
    {
      var f := if j < k then j else j + 1;
      assert t[j] == db.cities[f];
      IdsDistinct(db, f, k);
    }
  }

  /** " Paris " is stored as "paris", owned by the caller and not a favourite. */
  lemma PaddedNameStoredNormalized(owner: UserId)
    ensures AddCity(Db([], 0), owner, Some(" Paris ")).response == Ok(City(0, owner, "paris", false))
  {
    PaddedParisNormalized();
  }

  lemma PaddedParisNormalized()
    ensures Normalize(" Paris ") == "paris"
  {
    PaddedParisTrimmed();
    ParisLowered();
  }

  lemma PaddedParisTrimmed()
    ensures Trim(" Paris ") == "Paris"
  {
    LeadingSpaceDropped();
    TrailingSpaceDropped();
  }

  lemma LeadingSpaceDropped()
    ensures LeadingSpaces(" Paris ") == 1
  {
    assert " Paris "[1..] == "Paris ";
    assert LeadingSpaces("Paris ") == 0 by { assert !IsSpace('P'); }
  }

  lemma TrailingSpaceDropped()
    ensures TrailingSpaces(" Paris ") == 1
  {
    assert " Paris "[..6] == " Paris";
    assert TrailingSpaces(" Paris") == 0 by { assert !IsSpace('s'); }
  }

  lemma ParisLowered()
    ensures ToLower("Paris") == "paris"
  {
  }
}
