/** The `review` and `amenities` properties of a Place (models/place.py):
  * scans of the stored Reviews and Amenities, recomputed on every access.
  * The stored records are passed in as the sequences that
  * `storage.all(Review).values()` and `storage.all(Amenity).values()`
  * yield, in their iteration order. */
module Places {
  import opened Entities
  import opened Seqs

  // ---------------------------------------------------------------------
  // review

  /** The test the `review` scan applies to each Review. */
  function OfPlace(placeId: string): Review -> bool
  {
    (r: Review) => r.placeId == placeId
  }

  /** The reviews of the Place with id `placeId`, given the stored Reviews. */
  function ReviewsOf(placeId: string, stored: seq<Review>): seq<Review>
  {
    Filter(stored, OfPlace(placeId))
  }

  /** The `review` property: append each stored Review whose `place_id` is
    * the Place's id. The result is exactly those Reviews, in storage order. */
  method Reviews(place: Place, stored: seq<Review>) returns (reviewList: seq<Review>)
    ensures reviewList == ReviewsOf(place.id, stored)
    ensures |reviewList| <= |stored|
    ensures forall r :: r in reviewList <==> r in stored && r.placeId == place.id
  {
    reviewList := [];
    for i := 0 to |stored|
      invariant reviewList == ReviewsOf(place.id, stored[..i])
    {
      var review := stored[i];
      assert stored[..i + 1][..i] == stored[..i];
      if review.placeId == place.id {
        reviewList := reviewList + [review];
      }
    }
    assert stored[..|stored|] == stored;
    ReviewsMembership(place.id, stored);
  }

  /** A Review is in the result exactly when it is stored and its
    * `place_id` is the Place's id. */
  lemma ReviewsMembership(placeId: string, stored: seq<Review>)
    ensures forall r :: r in ReviewsOf(placeId, stored) <==> r in stored && r.placeId == placeId
  {
    forall r | r in stored && r.placeId == placeId
      ensures r in ReviewsOf(placeId, stored)
    {
      FilterComplete(stored, OfPlace(placeId), r);
    }
  }

  /** Order: a list is the result exactly when it consists of the stored
    * Reviews of this Place at their storage positions, in increasing order. */
  lemma ReviewsOrder(placeId: string, stored: seq<Review>, r: seq<Review>)
    ensures r == ReviewsOf(placeId, stored)
        <==> exists idx :: SelectsKept(stored, OfPlace(placeId), r, idx)
  {
    if r == ReviewsOf(placeId, stored) {
      var idx := FilterIndices(stored, OfPlace(placeId));
    }
    if idx :| SelectsKept(stored, OfPlace(placeId), r, idx) {
      FilterUnique(stored, OfPlace(placeId), r, idx);
    }
  }

  // ---------------------------------------------------------------------
  // amenities

  /** Every scanned Amenity has a `place_id` attribute to read. */
  predicate AllHavePlaceId(stored: seq<Amenity>)
  {
    forall i :: 0 <= i < |stored| ==> stored[i].placeId.Some?
  }

  /** The test the `amenities` scan applies to each Amenity: its `place_id`
    * is a member of the Place's `amenity_ids`. */
  function Listed(amenityIds: seq<string>): Amenity -> bool
  {
    (a: Amenity) => a.placeId.Some? && a.placeId.value in amenityIds
  }

  /** The outcome of the `amenities` scan: reading `place_id` from an Amenity
    * that has none raises AttributeError and abandons the scan; otherwise
    * the Amenities whose `place_id` is listed, in storage order. */
  function AmenitiesOf(amenityIds: seq<string>, stored: seq<Amenity>): Result<seq<Amenity>>
  {
    if AllHavePlaceId(stored) then Ok(Filter(stored, Listed(amenityIds)))
    else Err(AttributeError("Amenity", "place_id"))
  }

  /** The `amenities` property: append each stored Amenity whose `place_id`
    * is in the Place's `amenity_ids`, failing on the first Amenity without
    * a `place_id`. */
  method Amenities(place: Place, stored: seq<Amenity>) returns (amenityList: Result<seq<Amenity>>)
    ensures amenityList == AmenitiesOf(place.amenityIds, stored)
    ensures amenityList.Err? <==> exists i :: 0 <= i < |stored| && stored[i].placeId.None?
    ensures amenityList.Ok? ==> |amenityList.value| <= |stored|
    ensures amenityList.Ok? ==>
      forall a :: a in amenityList.value <==> a in stored && a.placeId.Some? && a.placeId.value in place.amenityIds
  {
    var listed: seq<Amenity> := [];
    for i := 0 to |stored|
      invariant AllHavePlaceId(stored[..i])
      invariant listed == Filter(stored[..i], Listed(place.amenityIds))
    {
      var amenity := stored[i];
      assert stored[..i + 1][..i] == stored[..i];
      if amenity.placeId.None? {
        amenityList := Err(AttributeError("Amenity", "place_id"));
        assert !AllHavePlaceId(stored) by {
          assert stored[i].placeId.None?;
        }
        return;
      }
      if amenity.placeId.value in place.amenityIds {
        listed := listed + [amenity];
      }
    }
    assert stored[..|stored|] == stored;
    amenityList := Ok(listed);
    AmenitiesMembership(place.amenityIds, stored);
  }

  /** When the scan succeeds, an Amenity is in the result exactly when it
    * is stored and its `place_id` is one of the Place's `amenity_ids`. */
  lemma AmenitiesMembership(amenityIds: seq<string>, stored: seq<Amenity>)
    ensures var result := AmenitiesOf(amenityIds, stored);
      result.Ok? ==> forall a :: a in result.value <==> a in stored && a.placeId.Some? && a.placeId.value in amenityIds
  {
    forall a | a in stored && Listed(amenityIds)(a)
      ensures a in Filter(stored, Listed(amenityIds))
    {
      FilterComplete(stored, Listed(amenityIds), a);
    }
  }

  /** Order: when the scan succeeds, its result consists of the listed
    * Amenities at their storage positions, in increasing order, and any such
    * list is the result. */
  lemma AmenitiesOrder(amenityIds: seq<string>, stored: seq<Amenity>, r: seq<Amenity>)
    requires AllHavePlaceId(stored)
    ensures AmenitiesOf(amenityIds, stored) == Ok(r)
        <==> exists idx :: SelectsKept(stored, Listed(amenityIds), r, idx)
  {
    if AmenitiesOf(amenityIds, stored) == Ok(r) {
      var idx := FilterIndices(stored, Listed(amenityIds));
    }
    if idx :| SelectsKept(stored, Listed(amenityIds), r, idx) {
      FilterUnique(stored, Listed(amenityIds), r, idx);
    }
  }

  /** With the default `amenity_ids = []` nothing is listed: the result is
    * the empty list, unless a stored Amenity has no `place_id`, in which case
    * the scan still raises before the membership test. */
  lemma AmenitiesOfDefaultIds(stored: seq<Amenity>)
    ensures AmenitiesOf([], stored)
         == if AllHavePlaceId(stored) then Ok([]) else Err(AttributeError("Amenity", "place_id"))
  {
    FilterEmpty(stored, Listed([]));
  }

  /** The result depends on `amenity_ids` only through which ids it holds:
    * duplicating or reordering the ids changes nothing. */
  lemma AmenitiesByMembershipOnly(ids1: seq<string>, ids2: seq<string>, stored: seq<Amenity>)
    requires forall x :: x in ids1 <==> x in ids2
    ensures AmenitiesOf(ids1, stored) == AmenitiesOf(ids2, stored)
  {
    FilterCongruent(stored, Listed(ids1), Listed(ids2));
  }

  // ---------------------------------------------------------------------
  // The properties as models/place.py has them: the module imports names
  // from `models.base_model`, `models.amenity` and `models.review` but never
  // binds the name `models` itself, so evaluating `models.storage` raises
  // NameError before any record is scanned. `Reviews` and `Amenities` above
  // are the properties with that name bound, as models/state.py binds it.

  /** `review` as written: NameError on every access, whatever is stored. */
  function ReviewsAsWritten(place: Place, stored: seq<Review>): (r: Result<seq<Review>>)
    ensures r.Err? && r.error == NameError("models")
  {
    Err(NameError("models"))
  }

  /** `amenities` as written: NameError on every access, whatever is stored,
    * before any Amenity's `place_id` is read. */
  function AmenitiesAsWritten(place: Place, stored: seq<Amenity>): (r: Result<seq<Amenity>>)
    ensures r.Err? && r.error == NameError("models")
  {
    Err(NameError("models"))
  }

  /** A Place with one stored Review and one stored Amenity that belong to
    * it: as written both properties raise, where the scans return them. */
  lemma MissingImportRaises()
    ensures var place := NewPlace("p1", "c1", "u1", "Loft").(amenityIds := ["p1"]);
      var review := Review("r1", "p1", "u1", "Quiet");
      var amenity := Amenity("a1", "Wifi", Some("p1"));
      && ReviewsAsWritten(place, [review]).Err?
      && ReviewsOf(place.id, [review]) == [review]
      && AmenitiesAsWritten(place, [amenity]).Err?
      && AmenitiesOf(place.amenityIds, [amenity]) == Ok([amenity])
  {
    var review := Review("r1", "p1", "u1", "Quiet");
    var amenity := Amenity("a1", "Wifi", Some("p1"));
    assert [review][..0] == [] && [amenity][..0] == [];
    assert ReviewsOf("p1", [review]) == [review];
    assert AllHavePlaceId([amenity]);
    assert Filter([amenity], Listed(["p1"])) == [amenity];
  }
}
