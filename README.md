# Patient management API: a verified model of its record store

The system is a small HTTP API over a patient-record store. The store is one
JSON object that maps a patient id to a record payload. A payload holds the
record's fields without the id, plus two derived fields, `bmi` and `verdict`.
Every write goes through the `Patient` validator. The operations are:

- view one record;
- create a record, refused when the id is already stored;
- update a record: the fields set in the request are merged over the stored
  payload, and the merged record is validated again as a whole `Patient`;
- delete a record;
- list the records stably sorted by height, weight or bmi, ascending or
  descending.

The model has three modules.

- `Records` (`records.dfy`) models JSON values and payloads. It holds the
  `Patient` validator (`Validate`), the `PatientUpdate` validator
  (`ValidatePatch`), BMI with Python's round-half-to-even (`RoundHalfEven`,
  `Bmi`), the verdict (`Verdict`) and the stored form of a record (`Dump`).
  Payloads are `map<string, Value>`, as the source works on dictionaries. This
  keeps the following expressible: a missing field, an explicit `null` in an
  update body, extra fields that validation ignores, and `x.get(sort_by, 0)`.
- `Sorting` (`sorting.dfy`) models `sort_patients`. It checks the arguments,
  then does a stable insertion sort on the key. The lemmas prove three things
  about the result: it is a permutation, it is ordered in the requested
  direction, and every subsequence of equal-key payloads keeps its order.
  `StableOrderIsUnique` shows that a stable sort has only one possible result,
  so Python's `sorted` returns the same sequence.
- `Store` (`store.dfy`) models the store as a class `PatientStore`. Its field
  `data` is the id-to-payload map. Its field `keys` is the dictionary's
  insertion order, which `data.values()` follows and which breaks ties in the
  sort. Create, update and delete assign these fields. Each method states the
  whole new state and leaves the store unchanged on every error. The merge
  loop of `update_patient` is the method `Merge`. The function `PatchedRecord`
  states what an update stores, and the lemmas beside it prove the update
  properties.

Errors are a datatype, not HTTP status codes. `Invalid(fields)` stands for a
failed field validation and names the failing fields. `NotFound`, `Conflict`,
`BadSortField` and `BadSortOrder` are the source's HTTPExceptions.
`Incomparable` stands for the `TypeError` that Python's sort raises on keys it
cannot compare. The framework validates a request body before the handler
runs. So a create body is validated before the duplicate-id check, and an
update body is validated before the not-found check.

The model follows the code: name and city have no constraint, and the empty
string is accepted. A BMI
from 25 to 29 gets the verdict "normal". The update gender labels
`male`/`female`/`other` differ from the record labels `Male`/`Female`/`others`
(main.py:15, main.py:42). Because of that mismatch, every update that sets
`gender` is refused; `GenderUpdateAlwaysRejected` proves it.

## Model

| member | source | states |
|---|---|---|
| `Records.Validate` | main.py:9-17 | A body is accepted exactly when id, name and city are strings (any string, empty included), age is an integer with 0 < age < 120, gender is one of Male, Female, others, and height and weight are positive numbers. The record then carries the body's values and satisfies `Patient.Valid`. On refusal, the error names exactly the fields that fail. |
| `Records.RoundHalfEven` | main.py:22 | `round` returns an integer within 1/2 of its argument, and on a tie it returns the even integer. |
| `Records.Bmi` | main.py:19-23 | bmi is weight / height² rounded to an integer: at most 1/2 from the exact quotient, and the even integer when the quotient lies exactly halfway (Python's `round`). |
| `Records.Verdict` | main.py:25-35 | An integer bmi of at most 18 gives "underweight". From 19 to 29 it gives "normal", so the 25 to 29 band is "normal" too. From 30 up it gives "obese". No other string is returned. |
| `Records.Dump` | main.py:111 | The stored payload has exactly the fields name, city, age, gender, height, weight, bmi and verdict, and no id. bmi and verdict are derived from height and weight. Validating the payload with its id put back returns the same record (round trip). |
| `Records.ValidatePatch` | main.py:38-44 | An update body is accepted exactly when every field it sets is null or passes its `PatientUpdate` constraint: name and city strings, age an integer > 0 with no upper bound, gender one of male, female, other, height and weight positive numbers. The result keeps exactly the update fields the body sets. On refusal, the error names exactly the set fields that fail. |
| `Sorting.SortPatients` | main.py:82-98 | A sort field outside height, weight, bmi gives `BadSortField`. Otherwise an order outside asc, desc gives `BadSortOrder`. With valid arguments, the sort fails only when there are at least two payloads and one of them holds a non-number under the key. Otherwise the result is a permutation of the payloads, ordered by `x.get(sort_by, 0)` (non-decreasing for asc, non-increasing for desc), and payloads with equal keys keep their relative order. |
| `Sorting.StableSortCorrect` | main.py:96 | The insertion sort permutes its input, sorts it by key in the chosen direction, and keeps the subsequence of payloads for every key value. |
| `Sorting.StableOrderIsUnique` | main.py:96 | Two sequences that are both sorted by key and both keep every equal-key subsequence are equal. So any stable sort gives the same result. |
| `Sorting.SortPatientsIsTheStableSort` | main.py:96 | Any ordering of the stored payloads that is sorted in the requested direction and stable is exactly the result of `SortPatients`. |
| `Sorting.DumpsAreSortable` | main.py:96 | Payloads written by create or update always sort without error, because their height, weight and bmi are numbers. |
| `Store.Without` | main.py:154 | After `del`, the key order holds exactly the old keys other than the deleted one; deleting an absent key leaves the order as it is. |
| `Store.WithoutAt` | main.py:154 | In a duplicate-free key order, `del` takes out the key's one position and keeps every other key in its relative order. |
| `Store.ValuesWithout` | main.py:154 | After deleting the key at position i, `data.values()` is the old values with position i cut out, the rest in their order. |
| `Store.WithoutKeepsDistinct` | main.py:154 | Removing a key from a duplicate-free key order leaves it duplicate-free. |
| `Store.ValuesInOrder` | main.py:96 | `data.values()` has one payload per key, in key order, each the payload stored under its key. |
| `Store.Merge` | main.py:129-132 | The merge loop copies every field the patch sets and keeps every other field of the stored payload. The field set is the union of the two. |
| `Store.PatchedRecord` | main.py:119-147 | An update body that fails `PatientUpdate` gives that validation error. For an absent id the update gives `NotFound`. Otherwise the patch is merged over the stored payload with the id put back, and the update succeeds exactly when that merged record validates as a `Patient`; a failure is that validation's error. On success the stored payload is the dump of the validated record, so it has exactly the stored-payload fields and validates again with its id. |
| `Store.UpdateMergesSetFields` | main.py:127-142 | After a successful update, every field the patch sets holds the patch's value, and every field it does not set holds the old value. A float field given as an integer is stored as a float. bmi and verdict are recomputed from the new height and weight. |
| `Store.GenderUpdateAlwaysRejected` | main.py:136-137 | Any update that sets gender fails the final validation on the gender field. The update labels (main.py:42) and the record labels (main.py:15) have no value in common, and an explicit null is not a label. |
| `Store.UpdateRechecksAgeBound` | main.py:136-137 | An age of 120 or more passes `PatientUpdate`, whose only age constraint is > 0. The update still fails on the age field, because the merged record is validated as a `Patient`. |
| `Store.EmptyUpdateKeepsStoredRecord` | main.py:127-142 | An update with an empty body, applied to a payload this API stored, stores that same payload again. |
| `Store.PatientStore.constructor` | main.py:47-50 | The loaded store is a dictionary: a map and its duplicate-free insertion order over the same keys. |
| `Store.PatientStore.ViewAll` | main.py:67-70 | `/view` returns the whole map. |
| `Store.PatientStore.View` | main.py:73-79 | Returns the payload stored under the id, or `NotFound` when the id is absent. The store is not changed. |
| `Store.PatientStore.Create` | main.py:101-116 | An invalid body gives its validation error, and an id that is already stored gives `Conflict`; in both cases the store is unchanged. Otherwise the new map is the old map plus exactly the new id, mapped to the record's payload. The id goes last in the key order, so the values gain that payload at the end. |
| `Store.PatientStore.Update` | main.py:119-147 | The store changes exactly as `PatchedRecord` says. On an error, the map is unchanged. On success, only the entry for the id is replaced. The key order never changes. |
| `Store.PatientStore.Delete` | main.py:149-157 | An absent id gives `NotFound`, and the store is unchanged. Otherwise exactly that key is removed from the map and from the key order; every other entry is unchanged. The remaining keys, and so the stored payloads in `data.values()`, keep their relative order: the deleted key's position is cut out of both. |
| `Store.PatientStore.Sort` | main.py:82-98 | Returns `SortPatients` applied to the stored payloads in insertion order. The store is not changed. |

## Left out

- The FastAPI application, its routing, the `Path`/`Query` metadata, `JSONResponse` and the HTTP status codes (main.py:1-7). Errors are a datatype. The static endpoints `hello` and `about` (main.py:59-65) have no logic.
- `load_data` and `save_data` (main.py:47-54) are file I/O. The store's two fields stand for the file. The constructor is the load, and each successful mutation is a save. `save_data` runs only after every check of a request has passed (main.py:114, main.py:145, main.py:155). A request that fails, whether in the framework's body validation or in the handler (such as the full `Patient` validation at main.py:137), never saves, so its changes to the loaded copy are never persisted. Because of that, `update_patient`'s in-place edit of the loaded dictionary entry is modelled on a local copy.
- JSON values are strings, integers, floats and null. Booleans, arrays and nested objects are not modelled. The store file is assumed to parse; a missing or corrupt file (an unhandled error in the source) is not modelled.
- Floating point: height, weight and the BMI quotient are exact reals. The IEEE behaviour of `weight / height**2` is not captured:
  - rounding can differ from the exact quotient near a .5 boundary;
  - a very large height (for example 1e200) makes `height**2` raise `OverflowError`;
  - a very small height (for example 1e-200) makes `height**2` underflow to 0.0, and the division raises `ZeroDivisionError`;
  - a quotient that overflows to infinity makes `round` raise `OverflowError`.
  In each of these error cases `model_dump` fails (main.py:111, main.py:139), so the request fails and nothing is saved. `Store.PatientStore.Create` and `Store.PatientStore.Update` store a record in those cases instead.
- Pydantic's lax coercions are not modelled: an integral float or a numeric string accepted for `age`, or a numeric string accepted for `height` and `weight`. In the model, age must be a JSON integer and height and weight must be JSON numbers. Pydantic's error messages are reduced to the set of failing field names.
- The computed `bmi` field is annotated `float` but holds the integer that `round` returns; the model stores it as an integer.
- Concurrent writers to the store file: the source has no concurrency control, so there is nothing to model.
- Sorting.SortPatients: when there are two or more payloads and every one holds a string under the sort key, Python orders the strings lexicographically; the model reports `Incomparable` instead. In every other case with a non-number key, Python raises a `TypeError`, which is what `Incomparable` stands for.
