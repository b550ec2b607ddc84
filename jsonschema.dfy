/** The part of JSON Schema (draft-07) that the bridge's schemas use, with
    Ajv's `nullable` extension, as a validation predicate over JSON values.
    JSON numbers are modelled as integers. */
module JsonSchema {
  import opened Wrappers

  datatype Json =
    | JNull
    | JBool(b: bool)
    | JNumber(n: int)
    | JString(s: string)
    | JArray(elems: seq<Json>)
    | JObject(fields: map<string, Json>)

  /** The object has a string under `name`. */
  predicate StringField(o: map<string, Json>, name: string) {
    name in o && o[name].JString?
  }

  /** The object has a number under `name`. */
  predicate NumberField(o: map<string, Json>, name: string) {
    name in o && o[name].JNumber?
  }

  datatype JsonType = TObject | TArray | TString | TNumber | TBoolean

  /** A schema object. An absent keyword is None, an empty map or sequence,
      or `false` for `nullable`; `anyOf` is absent when empty. */
  datatype Schema = Schema(
    id: string,
    ty: Option<JsonType>,
    properties: map<string, Schema>,
    required: seq<string>,
    anyOf: seq<Schema>,
    enumOf: Option<seq<Json>>,
    constOf: Option<Json>,
    nullable: bool,
    items: Option<Schema>)

  /** The schema `{}`, which every value satisfies. */
  const Empty: Schema := Schema("", None, map[], [], [], None, None, false, None)

  /** `{ type: t }` */
  function Typed(t: JsonType): Schema {
    Empty.(ty := Some(t))
  }

  predicate HasType(t: JsonType, j: Json) {
    match t
    case TObject => j.JObject?
    case TArray => j.JArray?
    case TString => j.JString?
    case TNumber => j.JNumber?
    case TBoolean => j.JBool?
  }

  /** `j` is valid against `s`. `type` is widened to admit null when
      `nullable` is set; `properties` and `required` constrain objects only,
      `items` arrays only; `anyOf` needs at least one branch to hold. The
      `$id` takes no part in validation. */
  predicate Validates(s: Schema, j: Json)
    decreases s
  {
    (s.ty.None? || HasType(s.ty.value, j) || (s.nullable && j.JNull?))
    && (j.JObject? ==> forall n | n in s.properties && n in j.fields :: Validates(s.properties[n], j.fields[n]))
    && (j.JObject? ==> forall n | n in s.required :: n in j.fields)
    && (s.items.Some? && j.JArray? ==> forall x | x in j.elems :: Validates(s.items.value, x))
    && (s.enumOf.Some? ==> j in s.enumOf.value)
    && (s.constOf.Some? ==> j == s.constOf.value)
    && (s.anyOf != [] ==> exists b | b in s.anyOf :: Validates(b, j))
  }

  /** `{ type: t }` accepts exactly the values of type `t`. */
  lemma TypedAccepts(t: JsonType, j: Json)
    ensures Validates(Typed(t), j) <==> HasType(t, j)
  {
  }

  /** `{ type: t, nullable: true }` accepts the values of type `t` and null. */
  lemma NullableAccepts(t: JsonType, j: Json)
    ensures Validates(Typed(t).(nullable := true), j) <==> HasType(t, j) || j.JNull?
  {
  }

  /** Changing `$id`, as `Object.assign({}, schema, { $id })` does, keeps
      the set of valid values. */
  lemma IdIrrelevant(s: Schema, id: string, j: Json)
    ensures Validates(s.(id := id), j) <==> Validates(s, j)
  {
  }

  /** `s` with one more property `name` checked by `sub`; when `needed`,
      `name` also joins the `required` list. */
  function WithProperty(s: Schema, name: string, sub: Schema, needed: bool): Schema {
    s.(properties := s.properties[name := sub], required := if needed then s.required + [name] else s.required)
  }

  /** A new property adds exactly its own condition: on an object, `name`
      must be present when needed, and valid against `sub` when present. */
  lemma WithPropertyAccepts(s: Schema, name: string, sub: Schema, needed: bool, j: Json)
    requires name !in s.properties
    ensures Validates(WithProperty(s, name, sub, needed), j) <==>
              Validates(s, j)
              && (j.JObject? ==> (needed ==> name in j.fields) && (name in j.fields ==> Validates(sub, j.fields[name])))
  {
    var s' := WithProperty(s, name, sub, needed);
    if j.JObject? {
      var f := j.fields;
      if Validates(s', j) {
        forall n | n in s.properties && n in f
          ensures Validates(s.properties[n], f[n])
        {
          assert n != name && s'.properties[n] == s.properties[n];
        }
        assert forall n | n in s.required :: n in s'.required;
        if name in f {
          assert s'.properties[name] == sub;
        }
      }
      if Validates(s, j) && (needed ==> name in f) && (name in f ==> Validates(sub, f[name])) {
        forall n | n in s'.properties && n in f
          ensures Validates(s'.properties[n], f[n])
        {
          if n != name {
            assert s'.properties[n] == s.properties[n];
          }
        }
      }
    }
  }

  /** `WithPropertyAccepts` for a property `{ type: t }`. */
  lemma WithTypedAccepts(s: Schema, name: string, t: JsonType, needed: bool, j: Json)
    requires name !in s.properties
    ensures Validates(WithProperty(s, name, Typed(t), needed), j) <==>
              Validates(s, j)
              && (j.JObject? ==> (needed ==> name in j.fields) && (name in j.fields ==> HasType(t, j.fields[name])))
  {
    WithPropertyAccepts(s, name, Typed(t), needed, j);
    if j.JObject? && name in j.fields {
      TypedAccepts(t, j.fields[name]);
    }
  }
}
