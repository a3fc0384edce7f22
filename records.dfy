/** Patient records: the JSON values that request bodies and the store file
    carry, the `Patient` and `PatientUpdate` validators, and the derived BMI
    and verdict. */
module Records {

  /** A JSON scalar as a request body or the store file carries it. */
  datatype Value = Str(s: string) | Int(i: int) | Num(r: real) | Null

  /** A JSON object: a request body, or a stored record payload. */
  type Payload = map<string, Value>

  datatype Option<T> = None | Some(value: T)

  /** The ways an operation can fail. */
  datatype Error =
    | Invalid(fields: set<string>)  // these fields fail the model's constraints
    | NotFound                      // no record is stored under the id
    | Conflict                      // create with an id that is already stored
    | BadSortField                  // sort_by is not height, weight or bmi
    | BadSortOrder                  // order is not asc or desc
    | Incomparable                  // a sort key is not a number

  datatype Result<T> = Ok(value: T) | Err(error: Error)

  const CreateGenders: set<string> := {"Male", "Female", "others"}
  const UpdateGenders: set<string> := {"male", "female", "other"}

  /** The fields of the `Patient` model, of the `PatientUpdate` model, and of a stored payload. */
  const PatientFields: set<string> := {"id", "name", "city", "age", "gender", "height", "weight"}
  const UpdateFields: set<string> := {"name", "city", "age", "gender", "height", "weight"}
  const StoredFields: set<string> := {"name", "city", "age", "gender", "height", "weight", "bmi", "verdict"}

  /** A validated patient record. */
  datatype Patient = Patient(id: string, name: string, city: string, age: int,
                             gender: string, height: real, weight: real)
  {
    /** The field constraints of `Patient`; name and city may be any string. */
    predicate Valid() {
      0 < age < 120 && gender in CreateGenders && height > 0.0 && weight > 0.0
    }
  }

  /** A JSON number; a float field accepts an integer too. */
  predicate IsNumber(v: Value) { v.Int? || v.Num? }

  function AsReal(v: Value): real
    requires IsNumber(v)
  {
    if v.Int? then v.i as real else v.r
  }

  /** Whether field `f` of a body passes its `Patient` constraint. */
  predicate FieldOk(body: Payload, f: string) {
    f in body &&
    var v := body[f];
    if f == "age" then v.Int? && 0 < v.i < 120
    else if f == "gender" then v.Str? && v.s in CreateGenders
    else if f == "height" || f == "weight" then IsNumber(v) && AsReal(v) > 0.0
    else v.Str?
  }

  function FieldErrors(body: Payload): set<string> {
    set f | f in PatientFields && !FieldOk(body, f)
  }

  /** Builds a `Patient` from a body; fields outside the model are ignored. */
  function Validate(body: Payload): (r: Result<Patient>)
    ensures r.Ok? <==>
      && "id" in body && body["id"].Str?
      && "name" in body && body["name"].Str?
      && "city" in body && body["city"].Str?
      && "age" in body && body["age"].Int? && 0 < body["age"].i < 120
      && "gender" in body && body["gender"].Str? && body["gender"].s in CreateGenders
      && "height" in body && IsNumber(body["height"]) && AsReal(body["height"]) > 0.0
      && "weight" in body && IsNumber(body["weight"]) && AsReal(body["weight"]) > 0.0
    ensures r.Ok? ==>
      && r.value.Valid()
      && r.value == Patient(body["id"].s, body["name"].s, body["city"].s, body["age"].i,
                            body["gender"].s, AsReal(body["height"]), AsReal(body["weight"]))
    ensures r.Err? ==>
      && r.error.Invalid? && r.error.fields != {}
      && (forall f :: f in r.error.fields ==> f in PatientFields && !FieldOk(body, f))
      && (forall f :: f in PatientFields && !FieldOk(body, f) ==> f in r.error.fields)
  {
    var errors := FieldErrors(body);
    if errors != {} then Err(Invalid(errors))
    else
      assert forall f :: f in PatientFields ==> f !in errors;
      assert FieldOk(body, "id") && FieldOk(body, "name") && FieldOk(body, "city") && FieldOk(body, "age");
      assert FieldOk(body, "gender") && FieldOk(body, "height") && FieldOk(body, "weight");
      Ok(Patient(body["id"].s, body["name"].s, body["city"].s, body["age"].i,
                 body["gender"].s, AsReal(body["height"]), AsReal(body["weight"])))
  }

  /** Python's `round`: the nearest integer, and the even one on a tie. */
  function RoundHalfEven(x: real): (n: int)
    ensures -0.5 <= x - n as real <= 0.5
    ensures (x - n as real == 0.5 || x - n as real == -0.5) ==> n % 2 == 0
  {
    var f := x.Floor;
    var d := x - f as real;
    if d < 0.5 then f
    else if d > 0.5 then f + 1
    else if f % 2 == 0 then f
    else f + 1
  }

  /** weight / height², rounded to an integer. */
  function Bmi(height: real, weight: real): (b: int)
    requires height > 0.0
    ensures -0.5 <= weight / (height * height) - b as real <= 0.5
    ensures var q := weight / (height * height);
      (q - b as real == 0.5 || q - b as real == -0.5) ==> b % 2 == 0
  {
    RoundHalfEven(weight / (height * height))
  }

  /** The verdict on a BMI; the 25 to 30 band reads "normal" as well. */
  function Verdict(bmi: int): (v: string)
    ensures v == "underweight" <==> bmi <= 18
    ensures v == "normal" <==> 19 <= bmi < 30
    ensures v == "obese" <==> 30 <= bmi
  {
    if (bmi as real) < 18.5 then "underweight"
    else if bmi < 25 then "normal"
    else if bmi < 30 then "normal"
    else "obese"
  }

  /** The stored payload of a record: every field but the id, plus bmi and verdict. */
  function Dump(p: Patient): (d: Payload)
    requires p.Valid()
    ensures d.Keys == StoredFields
    ensures Validate(d["id" := Str(p.id)]) == Ok(p)
    ensures d["bmi"] == Int(Bmi(p.height, p.weight))
    ensures d["verdict"] == Str(Verdict(Bmi(p.height, p.weight)))
  {
    var bmi := Bmi(p.height, p.weight);
    map["name" := Str(p.name), "city" := Str(p.city), "age" := Int(p.age),
        "gender" := Str(p.gender), "height" := Num(p.height), "weight" := Num(p.weight),
        "bmi" := Int(bmi), "verdict" := Str(Verdict(bmi))]
  }

  /** The form a validated field takes in a stored payload: a float field
      holds an integer as a float. */
  function Stored(f: string, v: Value): Value {
    if (f == "height" || f == "weight") && v.Int? then Num(v.i as real) else v
  }

  /** Validating a body and storing the record keeps each field's value, in
      its stored form. */
  lemma DumpKeepsFields(body: Payload)
    requires Validate(body).Ok?
    ensures forall f :: f in UpdateFields ==> f in body && Dump(Validate(body).value)[f] == Stored(f, body[f])
  {
  }

  /** Whether a value set in an update body passes its `PatientUpdate` constraint;
      every field accepts an explicit null. */
  predicate PatchValueOk(f: string, v: Value) {
    v.Null? ||
    if f == "age" then v.Int? && v.i > 0
    else if f == "gender" then v.Str? && v.s in UpdateGenders
    else if f == "height" || f == "weight" then IsNumber(v) && AsReal(v) > 0.0
    else v.Str?
  }

  function PatchErrors(body: Payload): set<string> {
    set f | f in UpdateFields && f in body && !PatchValueOk(f, body[f])
  }

  /** Validates an update body and keeps the fields it sets. */
  function ValidatePatch(body: Payload): (r: Result<Payload>)
    ensures r.Ok? <==>
      && ("name" in body ==> body["name"].Null? || body["name"].Str?)
      && ("city" in body ==> body["city"].Null? || body["city"].Str?)
      && ("age" in body ==> body["age"].Null? || (body["age"].Int? && body["age"].i > 0))
      && ("gender" in body ==> body["gender"].Null? || (body["gender"].Str? && body["gender"].s in UpdateGenders))
      && ("height" in body ==> body["height"].Null? || (IsNumber(body["height"]) && AsReal(body["height"]) > 0.0))
      && ("weight" in body ==> body["weight"].Null? || (IsNumber(body["weight"]) && AsReal(body["weight"]) > 0.0))
    ensures r.Ok? ==>
      && r.value.Keys == body.Keys * UpdateFields
      && forall f :: f in r.value ==> r.value[f] == body[f]
    ensures r.Err? ==>
      && r.error.Invalid? && r.error.fields != {}
      && (forall f :: f in r.error.fields ==> f in UpdateFields && f in body && !PatchValueOk(f, body[f]))
      && (forall f :: f in UpdateFields && f in body && !PatchValueOk(f, body[f]) ==> f in r.error.fields)
  {
    var errors := PatchErrors(body);
    if errors != {} then Err(Invalid(errors))
    else
      assert forall f :: f in UpdateFields ==> f !in errors;
      Ok(map f | f in body && f in UpdateFields :: body[f])
  }
}
