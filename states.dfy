/** The `cities` property of a State (models/state.py): the stored Cities
  * whose `state_id` is the State's id, recomputed by a scan on every
  * access. The stored Cities are passed in as the sequence that
  * `storage.all(City).values()` yields, in its iteration order. */
module States {
  import opened Entities
  import opened Seqs

  /** The test the scan applies to each City. */
  function InState(stateId: string): City -> bool
  {
    (c: City) => c.stateId == stateId
  }

  /** The cities of the State with id `stateId`, given the stored Cities. */
  function CitiesOf(stateId: string, stored: seq<City>): seq<City>
  {
    Filter(stored, InState(stateId))
  }

  /** The property itself: start from an empty list and append each stored
    * City that carries the State's id. The result is exactly the stored
    * Cities of this State, in storage order, each taken once. */
  method Cities(state: State, stored: seq<City>) returns (cityList: seq<City>)
    ensures cityList == CitiesOf(state.id, stored)
    ensures |cityList| <= |stored|
    ensures forall c :: c in cityList <==> c in stored && c.stateId == state.id
  {
    cityList := [];
    for i := 0 to |stored|
      invariant cityList == CitiesOf(state.id, stored[..i])
    {
      var city := stored[i];
      assert stored[..i + 1][..i] == stored[..i];
      if city.stateId == state.id {
        cityList := cityList + [city];
      }
    }
    assert stored[..|stored|] == stored;
    CitiesMembership(state.id, stored);
  }

  /** Soundness and completeness: a City is in the result exactly when it
    * is stored and carries the State's id. */
  lemma CitiesMembership(stateId: string, stored: seq<City>)
    ensures forall c :: c in CitiesOf(stateId, stored) <==> c in stored && c.stateId == stateId
  {
    forall c | c in stored && c.stateId == stateId
      ensures c in CitiesOf(stateId, stored)
    {
      FilterComplete(stored, InState(stateId), c);
    }
  }

  /** Each stored City of this State appears in the result as many times as
    * it is stored, and no other City appears. */
  lemma CitiesCount(stateId: string, stored: seq<City>, c: City)
    ensures multiset(CitiesOf(stateId, stored))[c]
         == if c.stateId == stateId then multiset(stored)[c] else 0
  {
    FilterCount(stored, InState(stateId), c);
  }

  /** Order: a list is the result exactly when it consists of the stored
    * Cities of this State at their storage positions, in increasing order. */
  lemma CitiesOrder(stateId: string, stored: seq<City>, r: seq<City>)
    ensures r == CitiesOf(stateId, stored)
        <==> exists idx :: SelectsKept(stored, InState(stateId), r, idx)
  {
    if r == CitiesOf(stateId, stored) {
      var idx := FilterIndices(stored, InState(stateId));
    }
    if idx :| SelectsKept(stored, InState(stateId), r, idx) {
      FilterUnique(stored, InState(stateId), r, idx);
    }
  }

  /** The result is empty exactly when no stored City carries the State's
    * id; in particular when no City is stored. */
  lemma CitiesEmpty(stateId: string, stored: seq<City>)
    ensures CitiesOf(stateId, stored) == []
        <==> forall i :: 0 <= i < |stored| ==> stored[i].stateId != stateId
  {
    FilterEmpty(stored, InState(stateId));
  }

  /** Recomputed on every access: once a City is added at the end of the
    * stored ones, the next access has it at the end when it carries the
    * State's id, and is unchanged otherwise. */
  lemma CitiesAfterNew(stateId: string, stored: seq<City>, c: City)
    ensures CitiesOf(stateId, stored + [c])
         == CitiesOf(stateId, stored) + (if c.stateId == stateId then [c] else [])
  {
    FilterAppend(stored, [c], InState(stateId));
    assert [] + [c] == [c];
  }
}
