# Derived-relationship queries of the HBNB models

This project models, in Dafny, the derived relationships of the HBNB
entity classes (an AirBnB clone). These are the properties that work out
an entity's related records by scanning what storage currently holds:

- `State.cities` (models/state.py) gives the stored Cities whose `state_id` is the State's `id`.
- `Place.review` (models/place.py) gives the stored Reviews whose `place_id` is the Place's `id`.
- `Place.amenities` (models/place.py) gives the stored Amenities whose `place_id` is a member of the Place's `amenity_ids`.

Each property starts from an empty list and makes one pass over
`storage.all(X).values()`, appending every record that passes its test.
Nothing is cached, so every access recomputes the list. In the model, the
records storage yields are an input sequence in storage iteration order.
Each property is a method whose loop is proved against one specification,
`Seqs.Filter`: the order-preserving filter of that sequence. Lemmas then
prove the following about the filter and about each query:

- Soundness and completeness, in both directions.
- Multiplicity: each scanned record is taken at most once, and only when it passes the test.
- Order: the result is exactly the kept positions in increasing order, and only that list is.
- Emptiness, and behaviour when a record is added.
- Dependence on `amenity_ids` only through membership.

Files:

- `seqs.dfy` (module `Seqs`): the filter and its general properties.
- `entities.dfy` (module `Entities`): the City, Review, Amenity, State and Place records from models/city.py, models/review.py, models/amenity.py, models/state.py and models/place.py, plus the insert-time defaults of Place's integer columns.
- `states.dfy` (module `States`): `cities`.
- `places.dfy` (module `Places`): `review` and `amenities`, and both properties as they are written.

Entities and the scanned records are immutable values, and the query
methods have no `modifies` clause. So Dafny's framing itself guarantees
that computing a property changes neither storage, nor the entity, nor
`amenity_ids`. The result of `cities` depends only on the State's `id`
and the scanned Cities.

Two points where the model follows the code as written:

- `Amenity` declares only `name` (models/amenity.py:11), but the `amenities` scan reads `amenity.place_id` (models/place.py:75). The model's `Amenity` therefore has `placeId: Option<string>`. `None` means the object has no such attribute. Reading it then raises AttributeError, which ends the scan with `Err(AttributeError(...))`. When an attribute is present, the model tests its membership in `amenity_ids` exactly as the code does, which is also what the property's docstring (models/place.py:72) describes.
- models/place.py never binds the name `models` (see Findings). `Places.Reviews` and `Places.Amenities` model the properties with that name bound, the way models/state.py binds it.

## Model

| member | source | states |
|---|---|---|
| Seqs.Filter | models/state.py:26-30 | The scan-and-append result is no longer than the scanned sequence and holds only scanned records that pass the test |
| Seqs.FilterComplete | models/state.py:27-29 | Every scanned record that passes the test is in the result |
| Seqs.FilterCount | models/state.py:27-29 | A record passing the test appears as often as it was scanned; a failing one never appears. No record is taken twice |
| Seqs.FilterIndices | models/state.py:26-29 | The result is the scanned records at exactly the passing positions, in increasing position order |
| Seqs.FilterUnique | models/state.py:26-29 | Any list made of the passing positions in increasing order is the scan's result |
| Seqs.FilterEmpty | models/state.py:26-30 | The result is empty if and only if no scanned record passes the test |
| Seqs.FilterAppend | models/state.py:26-30 | Scanning `s + t` gives the result for `s` followed by the result for `t` |
| Seqs.FilterCongruent | models/place.py:75 | Two tests that agree on every scanned record give the same result |
| States.Cities | models/state.py:24-30 | The `cities` loop returns exactly the order-preserving filter of the stored Cities by `state_id == id`. It is no longer than the input, and a City is in it if and only if it is stored and carries the State's id |
| States.CitiesMembership | models/state.py:27-29 | A City is among the State's cities if and only if it is stored and its `state_id` is the State's `id` |
| States.CitiesCount | models/state.py:27-29 | A matching stored City appears as many times as it is stored; a non-matching City never appears |
| States.CitiesOrder | models/state.py:26-29 | A list is the `cities` result if and only if it is the matching stored Cities in storage order |
| States.CitiesEmpty | models/state.py:26-30 | `cities` is empty if and only if no stored City carries the State's id, which includes the case of no stored City |
| States.CitiesAfterNew | models/state.py:24-30 | Once a City is added after the stored ones, the next access ends with it if it matches, and is unchanged otherwise |
| Places.Reviews | models/place.py:61-68 | The `review` loop returns exactly the order-preserving filter of the stored Reviews by `place_id == id`. It is no longer than the input, and a Review is in it if and only if it is stored and carries the Place's id |
| Places.ReviewsMembership | models/place.py:64-68 | A Review is in `review` if and only if it is stored and its `place_id` is the Place's `id` |
| Places.ReviewsOrder | models/place.py:64-68 | A list is the `review` result if and only if it is the matching stored Reviews in storage order |
| Places.Amenities | models/place.py:70-77 | The `amenities` loop fails with AttributeError if and only if some stored Amenity has no `place_id`. Otherwise it returns the order-preserving filter by `place_id in amenity_ids`, no longer than the input and with exactly the listed stored Amenities |
| Places.AmenitiesMembership | models/place.py:73-77 | When the scan succeeds, an Amenity is in the result if and only if it is stored and its `place_id` is one of `amenity_ids` |
| Places.AmenitiesOrder | models/place.py:73-77 | When every Amenity has a `place_id`, a list is the result if and only if it is the listed stored Amenities in storage order |
| Places.AmenitiesOfDefaultIds | models/place.py:59-77 | With the default empty `amenity_ids`, the result is the empty list, unless a stored Amenity lacks `place_id`, in which case it is the AttributeError |
| Places.AmenitiesByMembershipOnly | models/place.py:75 | Two `amenity_ids` lists holding the same ids, whatever their order or duplicates, give the same result |
| Places.MissingImportRaises | models/place.py:3-13 | For a Place with one Review and one listed Amenity of its own, both properties as written raise NameError, while the scans return those records |
| Places.ReviewsAsWritten | models/place.py:61-68 | `review` as written: with `models` unbound in the module (lines 3-13), every access raises NameError, whatever is stored |
| Places.AmenitiesAsWritten | models/place.py:70-77 | `amenities` as written: with `models` unbound in the module (lines 3-13), every access raises NameError before any `place_id` is read |
| Entities.NewPlace | models/place.py:46-59 | A Place built from its id, city, user and name alone has those four values, no description, the four counters unset and `amenity_ids` the empty list |
| Entities.Inserted | models/place.py:50-53 | Inserting a Place stores 0 for each unset counter (the `default=0` of the four Integer columns), keeps each explicit counter, and leaves every other column as it is |
| Entities.UnsetCountersInsertZeros | models/place.py:50-53 | Any Place whose four counters are unset, whatever its other columns, is stored with 0 for rooms, bathrooms, guests and price and its other columns unchanged |
| Entities.NewPlaceInsertsZeros | models/place.py:50-59 | A Place built by `NewPlace` is stored with 0 for the four counters, its empty `amenity_ids`, no description, and its given id, city, user and name |
| Entities.InsertedCounters | models/place.py:50-53 | After insert every counter is set: 0 where it was unset, its own value where explicit. No other column changes, and inserting again changes nothing |

## Left out

- models/engine/db_storage.py: the only thing it holds is a constructor, which builds a MySQL URL from environment variables and drops tables. That is database I/O. The file does not parse as written, because of the missing comma before `pool_pre_ping` at lines 26-27. Even with that fixed, `from os import gentenv` at line 3 would fail with ImportError, and line 28 tests `getenv("HBNB_ENV" == "test")`.
- 1-pack_web_static.py and 3-deploy_web_static.py: archiving and remote deployment, which is shell and network I/O.
- The SQLAlchemy declarations are left out: column types and lengths, `nullable=False`, foreign keys, the `reviews` relationship, the `place_amenity` association table and `cascade="delete"`. The database and the ORM enforce these, not code in the repository. The `cities` (models/state.py:22) and `amenities` (models/place.py:57) relationships are shadowed by the properties of the same name, which are what the model covers.
- Storage itself is left out: how `storage.all(X)` selects objects of one class, `new`, `save`, `reload`, `to_dict` and the `"Type.id"` keys. models/base_model.py and models/engine/file_storage.py are not part of this model. The model takes the sequence that storage yields as given.
- States.CitiesAfterNew: covers a City added after the stored ones, the way a new key enters a dictionary. Re-registering an existing key, which keeps its position, is not modelled.
- The clock and UUID generation behind `id`, `created_at` and `updated_at`, and the timestamp fields themselves.
- `latitude` and `longitude` (models/place.py:54-55): floating point, not part of the model.
- Integer widths: the integer columns are unbounded integers in the model.
- The class-level `amenity_ids = []` (models/place.py:59) is one list shared by every Place that never assigns its own, which is an aliasing hazard. The model gives each Place its own sequence, initially empty.
- `__str__` formatting.

## Findings

| source | as written | input that shows it | evidently intended | confidence | as-written member | corrected member |
|---|---|---|---|---|---|---|
| models/place.py:3-13 | The module imports `Base`, `BaseModel`, `Amenity` and `Review` from the `models` package but never binds `models`. So `models.storage` at lines 65 and 74 raises NameError on every access of `review` or `amenities` | Any Place, for example id `p1` with a stored Review whose `place_id` is `p1`: `review` raises instead of returning that Review | `import models`, as in models/state.py:3, so that both properties scan storage | high, not executed | Places.ReviewsAsWritten, Places.AmenitiesAsWritten (shown by Places.MissingImportRaises) | Places.Reviews, Places.Amenities |
