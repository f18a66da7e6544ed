/** The records the relationship queries read, with the fields their
  * classes declare, and the column defaults a Place row receives when it
  * is inserted. */
module Entities {

  datatype Option<T> = None | Some(value: T)

  /** Exceptions a query can raise, as values. */
  datatype Error =
    | NameError(name: string)                 // a global name that is not bound
    | AttributeError(owner: string, attr: string)  // an attribute the object does not have

  datatype Result<T> = Ok(value: T) | Err(error: Error)

  /** A City (models/city.py): the id of the State it belongs to, and its name. */
  datatype City = City(id: string, stateId: string, name: string)

  /** A Review (models/review.py): the Place and User it concerns, and its text. */
  datatype Review = Review(id: string, placeId: string, userId: string, text: string)

  /** An Amenity (models/amenity.py). The class declares only `name`; the
    * amenities query of a Place nevertheless reads `place_id` from it.
    * `placeId` is that attribute: `None` when the object has none (the
    * case for every Amenity built only from its declared fields), `Some`
    * when one was attached to the object at construction time. */
  datatype Amenity = Amenity(id: string, name: string, placeId: Option<string>)

  /** A State (models/state.py). */
  datatype State = State(id: string, name: string)

  /** A Place (models/place.py). The integer columns are `None` while unset
    * on the object; `amenityIds` is the list of linked amenity ids. The two
    * Float coordinates are not part of this model. */
  datatype Place = Place(
    id: string,
    cityId: string,
    userId: string,
    name: string,
    description: Option<string>,
    numberRooms: Option<int>,
    numberBathrooms: Option<int>,
    maxGuest: Option<int>,
    priceByNight: Option<int>,
    amenityIds: seq<string>)

  /** A Place given its id and its three non-nullable columns and nothing
    * else: the other columns unset, `amenity_ids` the empty list. */
  function NewPlace(id: string, cityId: string, userId: string, name: string): (p: Place)
    ensures p.id == id && p.cityId == cityId && p.userId == userId && p.name == name
    ensures p.amenityIds == [] && p.description.None?
    ensures p.numberRooms.None? && p.numberBathrooms.None? && p.maxGuest.None? && p.priceByNight.None?
  {
    Place(id, cityId, userId, name, None, None, None, None, None, [])
  }

  /** An integer column with `default=0`: an unset value becomes 0 on insert. */
  function IntegerColumnDefault(v: Option<int>): Option<int>
  {
    if v.None? then Some(0) else v
  }

  /** The Place as its row is inserted: the four integer columns take their
    * default 0 where unset; the other columns are stored as they are. */
  function Inserted(p: Place): (row: Place)
    ensures p.numberRooms.None? ==> row.numberRooms == Some(0)
    ensures p.numberBathrooms.None? ==> row.numberBathrooms == Some(0)
    ensures p.maxGuest.None? ==> row.maxGuest == Some(0)
    ensures p.priceByNight.None? ==> row.priceByNight == Some(0)
    ensures p.numberRooms.Some? ==> row.numberRooms == p.numberRooms
    ensures p.numberBathrooms.Some? ==> row.numberBathrooms == p.numberBathrooms
    ensures p.maxGuest.Some? ==> row.maxGuest == p.maxGuest
    ensures p.priceByNight.Some? ==> row.priceByNight == p.priceByNight
    ensures row.(numberRooms := p.numberRooms, numberBathrooms := p.numberBathrooms,
                 maxGuest := p.maxGuest, priceByNight := p.priceByNight) == p
  {
    p.(numberRooms := IntegerColumnDefault(p.numberRooms),
       numberBathrooms := IntegerColumnDefault(p.numberBathrooms),
       maxGuest := IntegerColumnDefault(p.maxGuest),
       priceByNight := IntegerColumnDefault(p.priceByNight))
  }

  /** Any Place whose four counters are unset stores 0 in all four, and
    * every other column as it is. */
  lemma UnsetCountersInsertZeros(p: Place)
    requires p.numberRooms.None? && p.numberBathrooms.None? && p.maxGuest.None? && p.priceByNight.None?
    ensures var row := Inserted(p);
      && row.numberRooms == Some(0) && row.numberBathrooms == Some(0)
      && row.maxGuest == Some(0) && row.priceByNight == Some(0)
      && row.id == p.id && row.cityId == p.cityId && row.userId == p.userId && row.name == p.name
      && row.description == p.description && row.amenityIds == p.amenityIds
  {
  }

  /** A Place built by `NewPlace` stores 0 for all four counters, and keeps
    * the empty `amenity_ids` it was created with. */
  lemma NewPlaceInsertsZeros(id: string, cityId: string, userId: string, name: string)
    ensures var row := Inserted(NewPlace(id, cityId, userId, name));
      && row.numberRooms == Some(0) && row.numberBathrooms == Some(0)
      && row.maxGuest == Some(0) && row.priceByNight == Some(0)
      && row.amenityIds == [] && row.description == None
      && row.id == id && row.cityId == cityId && row.userId == userId && row.name == name
  {
  }

  /** Inserting sets every counter, to 0 where it was unset and to its own
    * value where it was explicit, and inserting twice stores the same row as
    * inserting once. */
  lemma InsertedCounters(p: Place)
    ensures var row := Inserted(p);
      && row.numberRooms.Some? && row.numberBathrooms.Some?
      && row.maxGuest.Some? && row.priceByNight.Some?
      && (p.numberRooms.None? ==> row.numberRooms == Some(0))
      && (p.numberBathrooms.None? ==> row.numberBathrooms == Some(0))
      && (p.maxGuest.None? ==> row.maxGuest == Some(0))
      && (p.priceByNight.None? ==> row.priceByNight == Some(0))
      && (p.numberRooms.Some? ==> row.numberRooms == p.numberRooms)
      && (p.numberBathrooms.Some? ==> row.numberBathrooms == p.numberBathrooms)
      && (p.maxGuest.Some? ==> row.maxGuest == p.maxGuest)
      && (p.priceByNight.Some? ==> row.priceByNight == p.priceByNight)
      && row.(numberRooms := p.numberRooms, numberBathrooms := p.numberBathrooms,
              maxGuest := p.maxGuest, priceByNight := p.priceByNight) == p
      && Inserted(row) == row
  {
  }
}
