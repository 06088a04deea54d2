/**
 The OpenAPI generator: every data model becomes a schema definition
 `{type: 'object', properties}` whose properties carry each field's documentation
 type, and the scanned API document gets `components = {schemas: definitions}`.
 */
module Swagger {
  import opened Wrappers
  import opened Text

  /** A field of a data model: its name and the name of its schema type. */
  datatype Field = Field(name: string, typeName: string)

  datatype Model = Model(name: string, fields: seq<Field>)

  /** The JSON values a generated document is made of. */
  datatype Json =
    | JNull
    | JBool(b: bool)
    | JNumber(n: int)
    | JString(s: string)
    | JArray(elements: seq<Json>)
    | JObject(members: map<string, Json>)

  /** A written property: `{type: t}`, or `{}` when the type value is one JSON cannot hold. */
  datatype Property = Property(typeName: Option<string>)

  datatype Definition = Definition(typeName: string, properties: map<string, Property>)

  /**
   The methods every plain object inherits from `Object.prototype` whose names can
   be schema type names (those starting with a letter).
   */
  const PrototypeMethods: set<string> :=
    {"constructor", "hasOwnProperty", "isPrototypeOf", "propertyIsEnumerable", "toLocaleString", "toString", "valueOf"}

  /** What indexing the primitive-type table, a plain object, yields. */
  datatype Lookup = Own(text: string) | InheritedMethod | Undefined

  /** The fixed table of primitive types with a documentation type of their own. */
  function PrimitiveType(t: string): Lookup {
    if t == "Int" then Own("number")
    else if t == "DateTime" then Own("string")
    else if t in PrototypeMethods then InheritedMethod
    else Undefined
  }

  /**
   The written documentation type of a field type: the table's own entry, else the
   lower-cased name. An inherited method is truthy and so is kept, but it is a
   function, which the JSON writer drops: the property is written without a type.
   */
  function OpenApiType(t: string): (r: Option<string>)
    ensures r.None? <==> t in PrototypeMethods
    ensures r.Some? ==> IsLowerCase(r.value)
    ensures PrimitiveType(t).Own? ==> r == Some(PrimitiveType(t).text)
  {
    match PrimitiveType(t)
    case Own(p) => Some(p)
    case InheritedMethod => None
    case Undefined => Some(Lower(t))
  }

  lemma IntIsNumber()
    ensures OpenApiType("Int") == Some("number")
  {
  }

  lemma DateTimeIsString()
    ensures OpenApiType("DateTime") == Some("string")
  {
  }

  /** Every type outside the table and the inherited names documents as its own lower-cased spelling. */
  lemma OtherTypesAreLowerCased(t: string)
    requires t != "Int" && t != "DateTime" && t !in PrototypeMethods
    ensures OpenApiType(t) == Some(Lower(t))
    ensures |OpenApiType(t).value| == |t| && IsLowerCase(OpenApiType(t).value)
  {
  }

  /** A type named like an inherited method is written as a property with no type at all. */
  lemma InheritedNamesLoseTheirType(t: string)
    requires t in PrototypeMethods
    ensures PropertyJson(Property(OpenApiType(t))) == JObject(map[])
  {
  }

  lemma StringIsLowerCased()
    ensures OpenApiType("String") == Some("string")
  {
    assert Lower("String") == "string";
  }

  /** Entry `i` is the last one with its key, so its value is the one that stays. */
  predicate IsLast<V>(entries: seq<(string, V)>, i: int) {
    0 <= i < |entries| && forall j :: i < j < |entries| ==> entries[j].0 != entries[i].0
  }

  function KeysOf<V>(entries: seq<(string, V)>): set<string> {
    set i | 0 <= i < |entries| :: entries[i].0
  }

  /**
   Assigning the entries to a fresh object one after another: the keys are those of
   the entries and, for a repeated key, the value assigned last is the one kept.
   */
  function Assign<V>(entries: seq<(string, V)>): (m: map<string, V>)
    ensures m.Keys == KeysOf(entries)
    ensures forall i :: IsLast(entries, i) ==> entries[i].0 in m && m[entries[i].0] == entries[i].1
    decreases |entries|
  {
    if entries == [] then map[]
    else
      var init := entries[..|entries| - 1];
      var last := entries[|entries| - 1];
      assert entries == init + [last];
      AssignStep(init, last, Assign(init));
      Assign(init)[last.0 := last.1]
  }

  /** One more assignment adds its key and overrides any earlier value under it. */
  lemma AssignStep<V>(init: seq<(string, V)>, last: (string, V), m0: map<string, V>)
    requires m0.Keys == KeysOf(init)
    requires forall i :: IsLast(init, i) ==> init[i].0 in m0 && m0[init[i].0] == init[i].1
    ensures m0[last.0 := last.1].Keys == KeysOf(init + [last])
    ensures forall i :: IsLast(init + [last], i) ==>
      (init + [last])[i].0 in m0[last.0 := last.1] && m0[last.0 := last.1][(init + [last])[i].0] == (init + [last])[i].1
  {
    var entries := init + [last];
    var m := m0[last.0 := last.1];
    forall k | k in KeysOf(entries) ensures k in m.Keys {
      var i :| 0 <= i < |entries| && entries[i].0 == k;
      if i < |init| {
        assert entries[i] == init[i];
      }
    }
    forall k | k in m.Keys ensures k in KeysOf(entries) {
      if k == last.0 {
        assert entries[|init|] == last;
      } else {
        var i :| 0 <= i < |init| && init[i].0 == k;
        assert entries[i] == init[i];
      }
    }
    forall i | IsLast(entries, i) ensures entries[i].0 in m && m[entries[i].0] == entries[i].1 {
      if i < |init| {
        assert entries[i] == init[i];
        assert entries[|init|] == last;
        assert IsLast(init, i) by {
          forall j | i < j < |init| ensures init[j].0 != init[i].0 {
            assert entries[j] == init[j];
          }
        }
      }
    }
  }

  /** The assignments the field loop makes, in order: each field's name and its property. */
  function PropertyEntries(fields: seq<Field>): seq<(string, Property)> {
    seq(|fields|, i requires 0 <= i < |fields| => (fields[i].name, Property(OpenApiType(fields[i].typeName))))
  }

  /** No later field has the name of field `i`. */
  predicate IsLastField(fields: seq<Field>, i: int) {
    IsLast(PropertyEntries(fields), i)
  }

  /**
   The properties of a model: keyed by exactly its field names, each mapped to
   `{type: OpenApiType(field type)}`; when a name repeats, the later field wins.
   */
  function Properties(fields: seq<Field>): (m: map<string, Property>)
    ensures m.Keys == set i | 0 <= i < |fields| :: fields[i].name
    ensures forall i :: IsLastField(fields, i) ==> m[fields[i].name] == Property(OpenApiType(fields[i].typeName))
  {
    var entries := PropertyEntries(fields);
    assert forall i :: 0 <= i < |fields| ==> entries[i].0 == fields[i].name;
    assert KeysOf(entries) == set i | 0 <= i < |fields| :: fields[i].name;
    Assign(entries)
  }

  /** The definition generated for one model. */
  function DefinitionOf(m: Model): Definition {
    Definition("object", Properties(m.fields))
  }

  /** The assignments the model loop makes, in order: each model's name and its definition. */
  function DefinitionEntries(models: seq<Model>): seq<(string, Definition)> {
    seq(|models|, i requires 0 <= i < |models| => (models[i].name, DefinitionOf(models[i])))
  }

  /** No later model has the name of model `i`. */
  predicate IsLastModel(models: seq<Model>, i: int) {
    IsLast(DefinitionEntries(models), i)
  }

  /**
   The definitions: one per model name, each an object schema holding the
   properties of that model; no models, no definitions.
   */
  function Definitions(models: seq<Model>): (d: map<string, Definition>)
    ensures d.Keys == set i | 0 <= i < |models| :: models[i].name
    ensures forall i :: IsLastModel(models, i) ==> d[models[i].name] == DefinitionOf(models[i])
  {
    var entries := DefinitionEntries(models);
    assert forall i :: 0 <= i < |models| ==> entries[i].0 == models[i].name;
    assert KeysOf(entries) == set i | 0 <= i < |models| :: models[i].name;
    Assign(entries)
  }

  lemma NoModelsNoDefinitions()
    ensures Definitions([]) == map[]
  {
  }

  /** Every definition is an object schema. */
  lemma DefinitionsAreObjects(models: seq<Model>)
    ensures forall k :: k in Definitions(models) ==> Definitions(models)[k].typeName == "object"
  {
    var entries := DefinitionEntries(models);
    forall k | k in Definitions(models) ensures Definitions(models)[k].typeName == "object" {
      var i :| 0 <= i < |models| && models[i].name == k;
      var j := LastIndexOf(entries, i);
      assert IsLastModel(models, j) by {
        forall l | j < l < |models| ensures models[l].name != models[j].name {
          assert entries[l].0 == models[l].name;
        }
      }
    }
  }

  /** The position of the last entry with the key of entry `i`. */
  function LastIndexOf<V>(entries: seq<(string, V)>, i: int): (j: int)
    requires 0 <= i < |entries|
    ensures i <= j && IsLast(entries, j) && entries[j].0 == entries[i].0
    decreases |entries| - i
  {
    if forall k :: i < k < |entries| ==> entries[k].0 != entries[i].0 then i
    else
      var k :| i < k < |entries| && entries[k].0 == entries[i].0;
      LastIndexOf(entries, k)
  }

  /** When model names are distinct, every model has its own definition. */
  lemma DistinctModelsAllDefined(models: seq<Model>)
    requires forall i, j :: 0 <= i < j < |models| ==> models[i].name != models[j].name
    ensures forall i :: 0 <= i < |models| ==> Definitions(models)[models[i].name] == DefinitionOf(models[i])
  {
  }

  // The definitions as JSON, and the document the generator writes.

  function PropertyJson(p: Property): Json {
    match p.typeName
    case Some(t) => JObject(map["type" := JString(t)])
    case None => JObject(map[])
  }

  function DefinitionJson(d: Definition): Json {
    JObject(map[
      "type" := JString(d.typeName),
      "properties" := JObject(map k | k in d.properties :: PropertyJson(d.properties[k]))])
  }

  function SchemasJson(defs: map<string, Definition>): Json {
    JObject(map k | k in defs :: DefinitionJson(defs[k]))
  }

  /** `components` is replaced as a whole; every other top-level member is kept. */
  function WithComponents(doc: map<string, Json>, defs: map<string, Definition>): (r: map<string, Json>)
    ensures r.Keys == doc.Keys + {"components"}
    ensures forall k :: k in doc && k != "components" ==> r[k] == doc[k]
    ensures r["components"].JObject? && r["components"].members.Keys == {"schemas"}
  {
    doc["components" := JObject(map["schemas" := SchemasJson(defs)])]
  }

  /** The generator: definitions from the models, set into the scanned document. */
  function GenerateDocument(scanned: map<string, Json>, models: seq<Model>): map<string, Json> {
    WithComponents(scanned, Definitions(models))
  }

  // Reading the schemas back out of a document: the inverse of the encoding above.

  function ReadProperty(j: Json): Option<Property> {
    if j.JObject? && "type" in j.members && j.members["type"].JString? then Some(Property(Some(j.members["type"].s)))
    else if j == JObject(map[]) then Some(Property(None))
    else None
  }

  function ReadProperties(j: Json): Option<map<string, Property>> {
    if j.JObject? && forall k :: k in j.members ==> ReadProperty(j.members[k]).Some? then
      Some(map k | k in j.members :: ReadProperty(j.members[k]).value)
    else None
  }

  function ReadDefinition(j: Json): Option<Definition> {
    if j.JObject? && "type" in j.members && j.members["type"].JString? && "properties" in j.members then
      match ReadProperties(j.members["properties"])
      case Some(props) => Some(Definition(j.members["type"].s, props))
      case None => None
    else None
  }

  function ReadSchemas(doc: map<string, Json>): Option<map<string, Definition>> {
    if "components" in doc && doc["components"].JObject? && "schemas" in doc["components"].members then
      var schemas := doc["components"].members["schemas"];
      if schemas.JObject? && forall k :: k in schemas.members ==> ReadDefinition(schemas.members[k]).Some? then
        Some(map k | k in schemas.members :: ReadDefinition(schemas.members[k]).value)
      else None
    else None
  }

  lemma DefinitionRoundTrip(d: Definition)
    ensures ReadDefinition(DefinitionJson(d)) == Some(d)
  {
    var j := DefinitionJson(d).members["properties"];
    assert j.members.Keys == d.properties.Keys;
    forall k | k in j.members ensures ReadProperty(j.members[k]) == Some(d.properties[k]) {
      assert j.members[k] == PropertyJson(d.properties[k]);
    }
    assert (map k | k in j.members :: ReadProperty(j.members[k]).value) == d.properties;
    assert ReadProperties(j) == Some(d.properties);
  }

  /** Whatever the definitions, reading the schemas back from the document yields them. */
  lemma SchemasRoundTrip(doc: map<string, Json>, defs: map<string, Definition>)
    ensures ReadSchemas(WithComponents(doc, defs)) == Some(defs)
  {
    var schemas := SchemasJson(defs);
    var out := WithComponents(doc, defs);
    assert out["components"] == JObject(map["schemas" := schemas]);
    assert out["components"].members["schemas"] == schemas;
    assert schemas.members.Keys == defs.Keys;
    forall k | k in schemas.members ensures ReadDefinition(schemas.members[k]) == Some(defs[k]) {
      assert schemas.members[k] == DefinitionJson(defs[k]);
      DefinitionRoundTrip(defs[k]);
    }
    assert (map k | k in schemas.members :: ReadDefinition(schemas.members[k]).value) == defs;
  }

  /**
   The written document's `components.schemas` holds exactly the definitions of
   the models, whatever the scanned document held before.
   */
  lemma GeneratedSchemasAreTheDefinitions(scanned: map<string, Json>, models: seq<Model>)
    ensures ReadSchemas(GenerateDocument(scanned, models)) == Some(Definitions(models))
  {
    SchemasRoundTrip(scanned, Definitions(models));
  }
}
