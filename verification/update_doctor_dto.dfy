/** `UpdateDoctorDTO::toArray`: a partial doctor update that keeps exactly
    the fields the caller supplied. */
module UpdateDoctorDto {
  import opened Wrappers
  import Seqs

  datatype UpdateDoctor = UpdateDoctor(
    name: Option<string>,
    specialization: Option<string>,
    email: Option<string>,
    phone: Option<string>,
    isActive: Option<bool>)

  /** A PHP value an update field can hold. */
  datatype Value = Null | Str(s: string) | Bool(b: bool)

  type Entry = (string, Value)

  function StrValue(v: Option<string>): Value {
    if v.Some? then Str(v.value) else Null
  }

  function BoolValue(v: Option<bool>): Value {
    if v.Some? then Bool(v.value) else Null
  }

  const FieldNames: seq<string> := ["name", "specialization", "email", "phone", "is_active"]

  /** The array literal before filtering: every field, in declaration order. */
  function AllFields(dto: UpdateDoctor): seq<Entry> {
    [("name", StrValue(dto.name)),
     ("specialization", StrValue(dto.specialization)),
     ("email", StrValue(dto.email)),
     ("phone", StrValue(dto.phone)),
     ("is_active", BoolValue(dto.isActive))]
  }

  predicate NotNull(e: Entry) {
    e.1 != Null
  }

  /** `toArray`: `array_filter` with `!== null`, so `false` and "" survive. */
  function ToArray(dto: UpdateDoctor): (r: seq<Entry>)
    ensures forall e :: e in r ==> e.1 != Null && e.0 in FieldNames
  {
    Seqs.Filter(AllFields(dto), NotNull)
  }

  /** The value stored under `key`, if the key is present. */
  function Lookup(entries: seq<Entry>, key: string): Option<Value>
    decreases |entries|
  {
    if |entries| == 0 then None
    else if entries[0].0 == key then Some(entries[0].1)
    else Lookup(entries[1..], key)
  }

  /** The entry for one field after filtering: present exactly when the field
      was supplied. */
  function Kept(key: string, v: Value): seq<Entry> {
    if v != Null then [(key, v)] else []
  }

  lemma {:induction false} ToArrayShape(dto: UpdateDoctor)
    ensures ToArray(dto) ==
              Kept("name", StrValue(dto.name)) + Kept("specialization", StrValue(dto.specialization)) +
              Kept("email", StrValue(dto.email)) + Kept("phone", StrValue(dto.phone)) +
              Kept("is_active", BoolValue(dto.isActive))
  {
    var f := AllFields(dto);
    var a, b, c, d, e := [f[0]], [f[1]], [f[2]], [f[3]], [f[4]];
    assert f == a + b + c + d + e;
    Seqs.FilterConcat(a + b + c + d, e, NotNull);
    Seqs.FilterConcat(a + b + c, d, NotNull);
    Seqs.FilterConcat(a + b, c, NotNull);
    Seqs.FilterConcat(a, b, NotNull);
    Seqs.FilterSingleton(f[0], NotNull);
    Seqs.FilterSingleton(f[1], NotNull);
    Seqs.FilterSingleton(f[2], NotNull);
    Seqs.FilterSingleton(f[3], NotNull);
    Seqs.FilterSingleton(f[4], NotNull);
  }

  /** Looking past an entry kept for a different key. */
  lemma LookupKept(key: string, v: Value, rest: seq<Entry>, wanted: string)
    ensures Lookup(Kept(key, v) + rest, wanted) ==
              if v != Null && key == wanted then Some(v) else Lookup(rest, wanted)
  {
    if v != Null {
      assert (Kept(key, v) + rest)[1..] == rest;
    } else {
      assert Kept(key, v) + rest == rest;
    }
  }

  /** Looking a key up in the filtered array walks the five fields in order. */
  lemma {:induction false} LookupToArray(dto: UpdateDoctor, wanted: string)
    ensures Lookup(ToArray(dto), wanted) ==
              if StrValue(dto.name) != Null && wanted == "name" then Some(StrValue(dto.name))
              else if StrValue(dto.specialization) != Null && wanted == "specialization" then Some(StrValue(dto.specialization))
              else if StrValue(dto.email) != Null && wanted == "email" then Some(StrValue(dto.email))
              else if StrValue(dto.phone) != Null && wanted == "phone" then Some(StrValue(dto.phone))
              else if BoolValue(dto.isActive) != Null && wanted == "is_active" then Some(BoolValue(dto.isActive))
              else None
  {
    ToArrayShape(dto);
    var k0 := Kept("name", StrValue(dto.name));
    var k1 := Kept("specialization", StrValue(dto.specialization));
    var k2 := Kept("email", StrValue(dto.email));
    var k3 := Kept("phone", StrValue(dto.phone));
    var k4 := Kept("is_active", BoolValue(dto.isActive));
    assert ToArray(dto) == k0 + (k1 + (k2 + (k3 + (k4 + []))));
    LookupKept("name", StrValue(dto.name), k1 + (k2 + (k3 + (k4 + []))), wanted);
    LookupKept("specialization", StrValue(dto.specialization), k2 + (k3 + (k4 + [])), wanted);
    LookupKept("email", StrValue(dto.email), k3 + (k4 + []), wanted);
    LookupKept("phone", StrValue(dto.phone), k4 + [], wanted);
    LookupKept("is_active", BoolValue(dto.isActive), [], wanted);
  }

  /** Each key is present exactly when its field was supplied, and then maps
      to the supplied value. */
  lemma {:induction false} ToArrayKeepsSuppliedFields(dto: UpdateDoctor)
    ensures Lookup(ToArray(dto), "name") == (if dto.name.Some? then Some(Str(dto.name.value)) else None)
    ensures Lookup(ToArray(dto), "specialization") ==
              (if dto.specialization.Some? then Some(Str(dto.specialization.value)) else None)
    ensures Lookup(ToArray(dto), "email") == (if dto.email.Some? then Some(Str(dto.email.value)) else None)
    ensures Lookup(ToArray(dto), "phone") == (if dto.phone.Some? then Some(Str(dto.phone.value)) else None)
    ensures Lookup(ToArray(dto), "is_active") == (if dto.isActive.Some? then Some(Bool(dto.isActive.value)) else None)
  {
    LookupToArray(dto, "name");
    LookupToArray(dto, "specialization");
    LookupToArray(dto, "email");
    LookupToArray(dto, "phone");
    LookupToArray(dto, "is_active");
  }

  /** `is_active = false` is an update, not an omission. */
  lemma DeactivationIsKept(dto: UpdateDoctor)
    requires dto.isActive == Some(false)
    ensures ("is_active", Bool(false)) in ToArray(dto)
  {
    assert ("is_active", Bool(false)) in AllFields(dto);
  }

  /** With nothing supplied the update is empty, and no supplied field can
      ever be set to null. */
  lemma {:induction false} EmptyUpdate(dto: UpdateDoctor)
    ensures ToArray(dto) == [] <==>
              dto.name.None? && dto.specialization.None? && dto.email.None? && dto.phone.None? && dto.isActive.None?
    ensures |ToArray(dto)| <= |FieldNames|
  {
    ToArrayShape(dto);
  }
}
