/** The patient store: the id-to-payload dictionary that the API loads from
    and saves back to its JSON file, and the view, create, update, delete and
    sort operations on it. */
module Store {
  import opened Records
  import Sorting

  /** The success replies of the mutating endpoints. */
  datatype Reply = Created | Updated | Deleted

  predicate Distinct(s: seq<string>) {
    forall i, j :: 0 <= i < j < |s| ==> s[i] != s[j]
  }

  lemma DistinctCons(x: string, t: seq<string>)
    requires x !in t && Distinct(t)
    ensures Distinct([x] + t)
  {
    forall i, j | 0 <= i < j < |[x] + t| ensures ([x] + t)[i] != ([x] + t)[j] {
      assert ([x] + t)[j] == t[j - 1];
    }
  }

  /** `s` without `x`, the rest in their order: the key order after `del`. */
  function Without(s: seq<string>, x: string): (r: seq<string>)
    ensures forall y :: y in r <==> y in s && y != x
    ensures x !in s ==> r == s
  {
    if s == [] then []
    else if s[0] == x then Without(s[1..], x)
    else [s[0]] + Without(s[1..], x)
  }

  lemma {:induction false} WithoutKeepsDistinct(s: seq<string>, x: string)
    requires Distinct(s)
    ensures Distinct(Without(s, x))
  {
    if s != [] {
      DistinctTail(s);
      WithoutKeepsDistinct(s[1..], x);
      if s[0] != x {
        DistinctCons(s[0], Without(s[1..], x));
      }
    }
  }

  lemma {:induction false} DistinctTail(s: seq<string>)
    requires s != [] && Distinct(s)
    ensures s[0] !in s[1..] && Distinct(s[1..])
  {
    forall i, j | 0 <= i < j < |s[1..]| ensures s[1..][i] != s[1..][j] {
      assert s[1..][i] == s[i + 1] && s[1..][j] == s[j + 1];
    }
  }

  /** In a duplicate-free key order, removing a key takes out its one
      position and keeps every other key in its relative order. */
  lemma {:induction false} WithoutAt(s: seq<string>, x: string, i: int)
    requires Distinct(s) && 0 <= i < |s| && s[i] == x
    ensures Without(s, x) == s[..i] + s[i + 1..]
  {
    var t := s[1..];
    DistinctTail(s);
    if i == 0 {
      assert Without(s, x) == Without(t, x) == t;
      assert s[..0] + s[1..] == t;
    } else {
      assert t[i - 1] == x;
      WithoutAt(t, x, i - 1);
      assert s[0] != x;
      assert Without(s, x) == [s[0]] + (t[..i - 1] + t[i..]);
      assert t[..i - 1] == s[1..i] && t[i..] == s[i + 1..];
      assert s[..i] == [s[0]] + s[1..i];
    }
  }

  /** The payloads of `data` in the order of `keys`: `data.values()`. */
  function ValuesInOrder(keys: seq<string>, data: map<string, Payload>): (vs: seq<Payload>)
    requires forall k :: k in keys ==> k in data
    ensures |vs| == |keys|
    ensures forall i :: 0 <= i < |keys| ==> vs[i] == data[keys[i]]
  {
    if keys == [] then [] else [data[keys[0]]] + ValuesInOrder(keys[1..], data)
  }

  /** Index arithmetic of cutting position `i` out of a sequence. */
  lemma Cut<T>(s: seq<T>, i: int, c: seq<T>)
    requires 0 <= i < |s| && c == s[..i] + s[i + 1..]
    ensures |c| == |s| - 1
    ensures forall j :: 0 <= j < |c| ==> c[j] == s[if j < i then j else j + 1]
  {
  }

  /** In a duplicate-free key order, the key cut out at `i` is no longer present. */
  lemma {:induction false} CutRemovesKey(keys: seq<string>, i: int, ks: seq<string>)
    requires Distinct(keys) && 0 <= i < |keys| && ks == keys[..i] + keys[i + 1..]
    ensures keys[i] !in ks
  {
    Cut(keys, i, ks);
    forall j | 0 <= j < |ks| ensures ks[j] != keys[i] {
      assert ks[j] == keys[if j < i then j else j + 1];
    }
  }

  /** Cutting position `i` out of the keys cuts it out of the values, as long
      as every remaining key still maps to the same payload. */
  lemma {:induction false} ValuesCut(keys: seq<string>, data: map<string, Payload>, i: int,
                                     ks: seq<string>, rest: map<string, Payload>)
    requires (forall k :: k in keys ==> k in data) && 0 <= i < |keys|
    requires ks == keys[..i] + keys[i + 1..]
    requires forall k :: k in ks ==> k in rest && rest[k] == data[k]
    ensures var vs := ValuesInOrder(keys, data);
      ValuesInOrder(ks, rest) == vs[..i] + vs[i + 1..]
  {
    var vs := ValuesInOrder(keys, data);
    var ws := ValuesInOrder(ks, rest);
    var expected := vs[..i] + vs[i + 1..];
    Cut(keys, i, ks);
    Cut(vs, i, expected);
    forall j | 0 <= j < |ws| ensures ws[j] == expected[j] {
      assert ks[j] == keys[if j < i then j else j + 1];
    }
  }

  /** Deleting the key at position `i` takes exactly that payload out of
      `data.values()` and keeps the others in their order. */
  lemma {:induction false} ValuesWithout(keys: seq<string>, data: map<string, Payload>, i: int)
    requires Distinct(keys) && forall k :: k in keys <==> k in data
    requires 0 <= i < |keys|
    ensures forall k :: k in keys[..i] + keys[i + 1..] ==> k in data - {keys[i]}
    ensures var vs := ValuesInOrder(keys, data);
      ValuesInOrder(keys[..i] + keys[i + 1..], data - {keys[i]}) == vs[..i] + vs[i + 1..]
  {
    var ks := keys[..i] + keys[i + 1..];
    CutRemovesKey(keys, i, ks);
    assert forall k :: k in ks ==> k in keys;
    ValuesCut(keys, data, i, ks, data - {keys[i]});
  }

  /** The merge loop of `update_patient`: every field the patch sets is
      copied over the existing payload. */
  method Merge(existing: Payload, patch: Payload) returns (merged: Payload)
    ensures merged.Keys == existing.Keys + patch.Keys
    ensures forall k :: k in patch ==> merged[k] == patch[k]
    ensures forall k :: k in existing && k !in patch ==> merged[k] == existing[k]
  {
    merged := existing;
    var todo := patch.Keys;
    while todo != {}
      invariant todo <= patch.Keys
      invariant merged.Keys == existing.Keys + (patch.Keys - todo)
      invariant forall k :: k in patch && k !in todo ==> merged[k] == patch[k]
      invariant forall k :: k in existing && k !in patch ==> merged[k] == existing[k]
      decreases todo
    {
      var k :| k in todo;
      merged := merged[k := patch[k]];
      todo := todo - {k};
    }
  }

  /** The payload `update_patient` stores under `id`, or the error it
      reports: the patch is validated, merged over the stored payload, and
      the merged record is validated again as a whole `Patient`. */
  function PatchedRecord(data: map<string, Payload>, id: string, body: Payload): (r: Result<Payload>)
    ensures ValidatePatch(body).Err? ==> r == Err(ValidatePatch(body).error)
    ensures ValidatePatch(body).Ok? && id !in data ==> r == Err(NotFound)
    ensures ValidatePatch(body).Ok? && id in data ==>
      var merged := (data[id] + ValidatePatch(body).value)["id" := Str(id)];
      && (r.Ok? <==> Validate(merged).Ok?)
      && (r.Err? ==> r == Err(Validate(merged).error))
      && (r.Ok? ==> r.value == Dump(Validate(merged).value) && Validate(merged).value.Valid())
    ensures r.Ok? ==> id in data && r.value.Keys == StoredFields
    ensures r.Ok? ==> Validate(r.value["id" := Str(id)]).Ok?
    ensures r.Err? ==> r.error.Invalid? || r.error.NotFound?
  {
    match ValidatePatch(body)
    case Err(e) => Err(e)
    case Ok(patch) =>
      if id !in data then Err(NotFound)
      else
        match Validate((data[id] + patch)["id" := Str(id)])
        case Err(e) => Err(e)
        case Ok(p) => Ok(Dump(p))
  }

  /** A successful update keeps every field the patch does not set, takes
      every field it sets, and recomputes bmi and verdict from the new height
      and weight. */
  lemma UpdateMergesSetFields(data: map<string, Payload>, id: string, body: Payload)
    requires PatchedRecord(data, id, body).Ok?
    ensures var d := PatchedRecord(data, id, body).value;
      forall f :: f in UpdateFields ==>
        && (f in body ==> d[f] == Stored(f, body[f]))
        && (f !in body ==> f in data[id] && d[f] == Stored(f, data[id][f]))
    ensures var d := PatchedRecord(data, id, body).value;
      && d["height"].Num? && d["weight"].Num? && d["height"].r > 0.0
      && d["bmi"] == Int(Bmi(d["height"].r, d["weight"].r))
      && d["verdict"] == Str(Verdict(Bmi(d["height"].r, d["weight"].r)))
  {
    var patch := ValidatePatch(body).value;
    var merged := (data[id] + patch)["id" := Str(id)];
    assert PatchedRecord(data, id, body).value == Dump(Validate(merged).value);
    DumpKeepsFields(merged);
    forall f | f in UpdateFields
      ensures f in body ==> merged[f] == body[f]
      ensures f !in body ==> f in data[id] && merged[f] == data[id][f]
    {
    }
  }

  /** The update body's gender labels and the record's gender labels share
      no value, so every update that sets gender is refused by the final
      validation, whatever else it sets. */
  lemma GenderUpdateAlwaysRejected(data: map<string, Payload>, id: string, body: Payload)
    requires "gender" in body && ValidatePatch(body).Ok? && id in data
    ensures var r := PatchedRecord(data, id, body);
      r.Err? && r.error.Invalid? && "gender" in r.error.fields
  {
    var patch := ValidatePatch(body).value;
    var merged := (data[id] + patch)["id" := Str(id)];
    assert merged["gender"] == body["gender"];
    assert !FieldOk(merged, "gender");
  }

  /** The update body only asks for a positive age; the age bound of a record
      is enforced when the merged record is validated again. */
  lemma UpdateRechecksAgeBound(data: map<string, Payload>, id: string, body: Payload)
    requires "age" in body && body["age"].Int? && body["age"].i >= 120
    requires ValidatePatch(body).Ok? && id in data
    ensures PatchValueOk("age", body["age"])
    ensures var r := PatchedRecord(data, id, body);
      r.Err? && r.error.Invalid? && "age" in r.error.fields
  {
    var patch := ValidatePatch(body).value;
    var merged := (data[id] + patch)["id" := Str(id)];
    assert merged["age"] == body["age"];
    assert !FieldOk(merged, "age");
  }

  /** An empty update of a payload this API stored leaves it as it is. */
  lemma EmptyUpdateKeepsStoredRecord(data: map<string, Payload>, p: Patient)
    requires p.Valid() && p.id in data && data[p.id] == Dump(p)
    ensures PatchedRecord(data, p.id, map[]) == Ok(data[p.id])
  {
    assert ValidatePatch(map[]) == Ok(map[]);
    assert data[p.id] + map[] == Dump(p);
  }

  /** The store: the dictionary held in the JSON file. */
  class PatientStore {
    /** Patient id to stored payload. */
    var data: map<string, Payload>
    /** The ids in the dictionary's insertion order, which `values()` follows. */
    var keys: seq<string>

    ghost predicate Valid()
      reads this
    {
      Distinct(keys) && forall k :: k in keys <==> k in data
    }

    /** The stored payloads in insertion order. */
    function Values(): seq<Payload>
      reads this
      requires Valid()
    {
      ValuesInOrder(keys, data)
    }

    /** The store as loaded from the file: a dictionary and its key order. */
    constructor (keys0: seq<string>, data0: map<string, Payload>)
      requires Distinct(keys0) && forall k :: k in keys0 <==> k in data0
      ensures Valid() && keys == keys0 && data == data0
    {
      keys := keys0;
      data := data0;
    }

    /** `patient_record`: the whole dictionary. */
    method ViewAll() returns (all: map<string, Payload>)
      ensures all == data
    {
      all := data;
    }

    /** `view_patient`: the payload stored under `id`. */
    method View(id: string) returns (r: Result<Payload>)
      ensures r.Ok? <==> id in data
      ensures r.Ok? ==> r.value == data[id]
      ensures r.Err? ==> r.error == NotFound
    {
      if id in data {
        r := Ok(data[id]);
      } else {
        r := Err(NotFound);
      }
    }

    /** `create_patient`: validates the body, refuses an id already stored,
        and otherwise adds the record's payload under its id, last in order. */
    method Create(body: Payload) returns (r: Result<Reply>)
      requires Valid()
      modifies this
      ensures Valid()
      ensures Validate(body).Err? ==> r == Err(Validate(body).error) && unchanged(this)
      ensures Validate(body).Ok? && Validate(body).value.id in old(data) ==>
        r == Err(Conflict) && unchanged(this)
      ensures Validate(body).Ok? && Validate(body).value.id !in old(data) ==>
        var p := Validate(body).value;
        && r == Ok(Created)
        && data == old(data)[p.id := Dump(p)]
        && keys == old(keys) + [p.id]
        && Values() == old(Values()) + [Dump(p)]
    {
      var checked := Validate(body);
      if checked.Err? {
        return Err(checked.error);
      }
      var p := checked.value;
      if p.id in data {
        return Err(Conflict);
      }
      data := data[p.id := Dump(p)];
      keys := keys + [p.id];
      r := Ok(Created);
    }

    /** `update_patient`: validates the patch, refuses an unknown id, merges
        the set fields over the stored payload and stores the result once it
        validates as a whole record. */
    method Update(id: string, body: Payload) returns (r: Result<Reply>)
      requires Valid()
      modifies this
      ensures Valid() && keys == old(keys)
      ensures var out := PatchedRecord(old(data), id, body);
        && (out.Err? ==> r == Err(out.error) && data == old(data))
        && (out.Ok? ==> r == Ok(Updated) && data == old(data)[id := out.value])
    {
      var patched := ValidatePatch(body);
      if patched.Err? {
        return Err(patched.error);
      }
      if id !in data {
        return Err(NotFound);
      }
      var merged := Merge(data[id], patched.value);
      assert merged == data[id] + patched.value;
      var checked := Validate(merged["id" := Str(id)]);
      if checked.Err? {
        return Err(checked.error);
      }
      data := data[id := Dump(checked.value)];
      r := Ok(Updated);
    }

    /** `delete_patient`: refuses an unknown id, otherwise removes it. */
    method Delete(id: string) returns (r: Result<Reply>)
      requires Valid()
      modifies this
      ensures Valid()
      ensures id !in old(data) ==> r == Err(NotFound) && unchanged(this)
      ensures id in old(data) ==>
        && r == Ok(Deleted)
        && data == old(data) - {id}
        && keys == Without(old(keys), id)
    ensures id in old(data) ==>
      forall i :: 0 <= i < |old(keys)| && old(keys)[i] == id ==>
        && keys == old(keys)[..i] + old(keys)[i + 1..]
        && Values() == old(Values())[..i] + old(Values())[i + 1..]
    {
      if id !in data {
        return Err(NotFound);
      }
      ghost var keys0, data0 := keys, data;
      forall i | 0 <= i < |keys0| && keys0[i] == id
        ensures Without(keys0, id) == keys0[..i] + keys0[i + 1..]
        ensures ValuesInOrder(keys0[..i] + keys0[i + 1..], data0 - {id}) ==
          ValuesInOrder(keys0, data0)[..i] + ValuesInOrder(keys0, data0)[i + 1..]
      {
        WithoutAt(keys0, id, i);
        ValuesWithout(keys0, data0, i);
      }
      WithoutKeepsDistinct(keys, id);
      data := data - {id};
      keys := Without(keys, id);
      r := Ok(Deleted);
    }

    /** `sort_patients` over the stored payloads in insertion order. */
    method Sort(sortBy: string, order: string) returns (r: Result<seq<Payload>>)
      requires Valid()
      ensures r == Sorting.SortPatients(Values(), sortBy, order)
    {
      r := Sorting.SortPatients(ValuesInOrder(keys, data), sortBy, order);
    }
  }
}
