/** JSON schemas of Go types, and their YAML form.

    Named types are references into an environment, so a type graph may be cyclic; the source recurses
    through them without a visited set. `SchemaFor` is that walk cut off where more than `depth` named
    types are nested; `TypeGraph` says when the walk itself ends and when it builds a schema. */
module JsonSchema {
  import opened Wrappers
  import opened Ordering
  import opened Strings
  import opened YamlTree

  datatype BasicKind = BoolKind | IntKind | Int32Kind | Int64Kind | Float32Kind | Float64Kind | StringKind | OtherKind

  datatype Field = Field(name: string, exported: bool, jsonTag: string, fieldType: GoType)

  /** `jsonTag` is the value of the `json` key of the field's tag, empty when there is none. */
  datatype GoType =
    | Basic(kind: BasicKind)
    | Slice(elem: GoType)
    | Named(pkg: string, name: string)
    | Alias(rhs: GoType)
    | Interface
    | MapType
    | Pointer(target: GoType)
    | Struct(fields: seq<Field>)
    | Unsupported  // channels, functions, arrays and the rest

  datatype TypeName = TypeName(pkg: string, name: string)
  type Env = map<TypeName, GoType>

  /** Absent strings, maps and lists are the empty ones. */
  datatype Schema = Schema(kind: string, format: string, description: string, properties: map<string, Schema>,
                           items: Option<Schema>, required: seq<string>)

  function Plain(kind: string, format: string): Schema {
    Schema(kind, format, "", map[], None, [])
  }

  // ---------------------------------------------------------------- fields

  /** The property name and whether the property may be left out. */
  function TagName(tag: string, fieldName: string): (string, bool) {
    if tag == "" then (fieldName, false)
    else
      var parts := SplitOn(tag, ',');
      (if parts[0] == "" then fieldName else parts[0], "omitempty" in parts[1..])
  }

  /** Fields that are not exported, or tagged out, are skipped. */
  predicate Visited(f: Field) {
    f.exported && TagName(f.jsonTag, f.name).0 != "-"
  }

  predicate IsTimeTime(t: GoType) {
    t == Named("time", "Time")
  }

  // ---------------------------------------------------------------- struct tags

  lemma NoTag()
    ensures SplitOn("", ',') == [""]
  {
  }

  method JsonTagName(tag: string, fieldName: string) returns (name: string, omitempty: bool)
    ensures (name, omitempty) == TagName(tag, fieldName)
    ensures name == if SplitOn(tag, ',')[0] == "" then fieldName else SplitOn(tag, ',')[0]
    ensures omitempty <==> exists k :: 1 <= k < |SplitOn(tag, ',')| && SplitOn(tag, ',')[k] == "omitempty"
  {
    NoTag();
    if tag == "" {
      return fieldName, false;
    }
    var parts := SplitOn(tag, ',');
    name := parts[0];
    if name == "" {
      name := fieldName;
    }
    omitempty := false;
    for i := 1 to |parts|
      invariant omitempty <==> "omitempty" in parts[1..i]
    {
      assert parts[1..i + 1] == parts[1..i] + [parts[i]];
      if parts[i] == "omitempty" {
        omitempty := true;
      }
    }
    assert parts[1..|parts|] == parts[1..];
  }

  // ---------------------------------------------------------------- schemas

  function BasicSchema(kind: BasicKind): Schema {
    match kind
    case BoolKind => Plain("boolean", "")
    case IntKind => Plain("integer", "int32")
    case Int32Kind => Plain("integer", "int32")
    case Int64Kind => Plain("integer", "int64")
    case Float32Kind => Plain("number", "float")
    case Float64Kind => Plain("number", "double")
    case StringKind => Plain("string", "")
    case OtherKind => Plain("string", "")
  }

  /** What a walk gives: a schema, None for an unsupported construct, or nothing because it went too deep. */
  datatype Walked = Ended(schema: Option<Schema>) | Unfinished

  ghost function SchemaFor(env: Env, t: GoType, depth: nat): Walked
    decreases depth, t
  {
    match t
    case Basic(kind) => Ended(Some(BasicSchema(kind)))
    case Slice(e) =>
      (match SchemaFor(env, e, depth)
       case Ended(Some(inner)) => Ended(Some(Plain("array", "").(items := Some(inner))))
       case other => other)
    case Named(pkg, name) =>
      if IsTimeTime(t) then Ended(Some(Plain("string", "date-time")))
      else if depth == 0 || TypeName(pkg, name) !in env then Unfinished
      else SchemaFor(env, env[TypeName(pkg, name)], depth - 1)
    case Alias(r) => if r.Interface? then Ended(Some(Plain("object", ""))) else SchemaFor(env, r, depth)
    case Interface => Ended(Some(Plain("object", "")))
    case MapType => Ended(Some(Plain("object", "")))
    case Pointer(p) => SchemaFor(env, p, depth)
    case Struct(fields) => StructSchema(env, t, |fields|, depth)
    case Unsupported => Ended(None)
  }

  /** The walk over the first `n` fields, which stops at the first one that gives no schema; a later field
      of the same name replaces the property. */
  ghost function StructSchema(env: Env, t: GoType, n: nat, depth: nat): Walked
    requires t.Struct? && n <= |t.fields|
    decreases depth, t, 0, n
  {
    if n == 0 then Ended(Some(Plain("object", "")))
    else
      var before := StructSchema(env, t, n - 1, depth);
      var f := t.fields[n - 1];
      if !Built(before) || !Visited(f) then before
      else
        match SchemaFor(env, f.fieldType, depth)
        case Ended(Some(schema)) => Ended(Some(AddField(before.schema.value, f, schema)))
        case other => other
  }

  predicate Built(w: Walked) {
    w.Ended? && w.schema.Some?
  }

  function AddField(s: Schema, f: Field, schema: Schema): Schema {
    var (name, omitempty) := TagName(f.jsonTag, f.name);
    s.(properties := s.properties[name := schema], required := s.required + if omitempty then [] else [name])
  }

  /** The recursive walk, whenever it ends; `depth` only measures the recursion. */
  method BuildSchema(env: Env, t: GoType, ghost depth: nat) returns (s: Option<Schema>)
    requires SchemaFor(env, t, depth).Ended?
    ensures Ended(s) == SchemaFor(env, t, depth)
    decreases depth, t
  {
    match t
    case Basic(kind) => return Some(BasicSchema(kind));
    case Slice(e) =>
      var inner := BuildSchema(env, e, depth);
      return if inner.None? then None else Some(Plain("array", "").(items := Some(inner.value)));
    case Named(pkg, name) =>
      if pkg == "time" && name == "Time" {
        return Some(Plain("string", "date-time"));
      }
      s := BuildSchema(env, env[TypeName(pkg, name)], depth - 1);
    case Alias(r) =>
      if r.Interface? {
        return Some(Plain("object", ""));
      }
      s := BuildSchema(env, r, depth);
    case Interface => return Some(Plain("object", ""));
    case MapType => return Some(Plain("object", ""));
    case Pointer(p) => s := BuildSchema(env, p, depth);
    case Struct(fields) => s := BuildStruct(env, t, depth);
    case Unsupported => return None;
  }

  method BuildStruct(env: Env, t: GoType, ghost depth: nat) returns (s: Option<Schema>)
    requires t.Struct? && SchemaFor(env, t, depth).Ended?
    ensures Ended(s) == SchemaFor(env, t, depth)
    ensures s.Some? ==> Describes(env, t.fields, depth, s.value)
    decreases depth, t, 0
  {
    hide StructSchema, TagName, Describes;
    if Built(SchemaFor(env, t, depth)) {
      StructDescribed(env, t, depth);
    }
    var out := Plain("object", "");
    StructStarts(env, t, depth);
    for i := 0 to |t.fields|
      invariant StructSchema(env, t, i, depth) == Ended(Some(out))
    {
      StructContinues(env, t, i, depth);
      var f := t.fields[i];
      if !f.exported {
        continue;
      }
      var name, omitempty := JsonTagName(f.jsonTag, f.name);
      if name == "-" {
        continue;
      }
      StructStops(env, t, i + 1, depth);
      var field := BuildSchema(env, f.fieldType, depth);
      if field.None? {
        return None;
      }
      out := out.(properties := out.properties[name := field.value]);
      if !omitempty {
        out := out.(required := out.required + [name]);
      }
      assert out.required == out.required + [];
    }
    return Some(out);
  }

  lemma StructStarts(env: Env, t: GoType, depth: nat)
    requires t.Struct?
    ensures StructSchema(env, t, 0, depth) == Ended(Some(Plain("object", "")))
  {
  }

  lemma StructContinues(env: Env, t: GoType, i: nat, depth: nat)
    requires t.Struct? && i < |t.fields|
    ensures var f, before, after := t.fields[i], StructSchema(env, t, i, depth), StructSchema(env, t, i + 1, depth);
            if !Built(before) || !Visited(f) then after == before
            else
              var field := SchemaFor(env, f.fieldType, depth);
              after == if Built(field) then Ended(Some(AddField(before.schema.value, f, field.schema.value))) else field
  {
  }

  /** The first field without a schema decides the whole struct. */
  lemma {:induction false} StructStops(env: Env, t: GoType, n: nat, depth: nat)
    requires t.Struct? && n <= |t.fields|
    ensures !Built(StructSchema(env, t, n, depth)) ==>
              StructSchema(env, t, |t.fields|, depth) == StructSchema(env, t, n, depth)
    decreases |t.fields| - n
  {
    if n < |t.fields| {
      StructStops(env, t, n + 1, depth);
    }
  }

  ghost predicate Ends(env: Env, t: GoType) {
    exists depth :: SchemaFor(env, t, depth).Ended?
  }

  /** The walk over `t` ends with this result. */
  ghost predicate Gives(env: Env, t: GoType, s: Option<Schema>) {
    exists depth :: SchemaFor(env, t, depth) == Ended(s)
  }

  /** The schema of a named type is that of its underlying type. */
  method SchemaFromType(env: Env, n: TypeName) returns (s: Option<Schema>)
    requires n in env && Ends(env, env[n])
    ensures Gives(env, env[n], s)
  {
    ghost var depth: nat :| SchemaFor(env, env[n], depth).Ended?;
    s := BuildSchema(env, env[n], depth);
  }

  // ---------------------------------------------------------------- what a schema says

  /** The part of the tag before the first comma names the property, or the field does if that part is empty. */
  predicate HasName(f: Field, name: string) {
    name == if SplitOn(f.jsonTag, ',')[0] == "" then f.name else SplitOn(f.jsonTag, ',')[0]
  }

  /** A later part of the tag is `omitempty`. */
  predicate MayBeOmitted(f: Field) {
    exists k :: 1 <= k < |SplitOn(f.jsonTag, ',')| && SplitOn(f.jsonTag, ',')[k] == "omitempty"
  }

  predicate Shown(f: Field) {
    f.exported && !HasName(f, "-")
  }

  /** The schema is an object with one property per name of a shown field, described as the last field of that
      name, and requires the fields that may not be omitted, in order. */
  ghost predicate Describes(env: Env, fields: seq<Field>, depth: nat, s: Schema) {
    && s.kind == "object" && s.format == "" && s.description == "" && s.items == None
    && DescribesProperties(env, fields, depth, s.properties)
    && exists positions :: RequiresAt(fields, s.required, positions)
  }

  ghost predicate DescribesProperties(env: Env, fields: seq<Field>, depth: nat, properties: map<string, Schema>) {
    && (forall name :: name in properties <==> Declares(fields, name))
    && forall i, name | 0 <= i < |fields| && LastOfName(fields, i, name) ::
         name in properties && SchemaFor(env, fields[i].fieldType, depth) == Ended(Some(properties[name]))
  }

  ghost predicate Declares(fields: seq<Field>, name: string) {
    exists i :: 0 <= i < |fields| && Shown(fields[i]) && HasName(fields[i], name)
  }

  /** The field is shown under the name, and no later one is. */
  ghost predicate LastOfName(fields: seq<Field>, i: nat, name: string)
    requires i < |fields|
  {
    Shown(fields[i]) && HasName(fields[i], name)
    && forall j | i < j < |fields| && Shown(fields[j]) :: !HasName(fields[j], name)
  }

  ghost predicate RequiresAt(fields: seq<Field>, required: seq<string>, positions: seq<nat>) {
    && InOrder(positions, |fields|) && |positions| == |required|
    && (forall k :: 0 <= k < |required| ==> HasName(fields[positions[k]], required[k]))
    && forall i: nat | i < |fields| :: i in positions <==> Shown(fields[i]) && !MayBeOmitted(fields[i])
  }

  lemma TagOf(f: Field)
    ensures HasName(f, TagName(f.jsonTag, f.name).0) && (Visited(f) <==> Shown(f))
    ensures TagName(f.jsonTag, f.name).1 <==> MayBeOmitted(f)
  {
    if f.jsonTag == "" {
      NoTag();
    } else {
      var parts := SplitOn(f.jsonTag, ',');
      if MayBeOmitted(f) {
        var k :| 1 <= k < |parts| && parts[k] == "omitempty";
        assert parts[1..][k - 1] == "omitempty";
      }
      if "omitempty" in parts[1..] {
        var k :| 0 <= k < |parts| - 1 && parts[1..][k] == "omitempty";
        assert parts[k + 1] == "omitempty";
      }
    }
  }

  /** The schema built from the first fields describes just these. */
  lemma {:induction false} FieldsDescribed(env: Env, t: GoType, n: nat, depth: nat)
    requires t.Struct? && n <= |t.fields| && Built(StructSchema(env, t, n, depth))
    ensures Describes(env, t.fields[..n], depth, StructSchema(env, t, n, depth).schema.value)
  {
    hide Describes, StructSchema;
    if n == 0 {
      NoFieldsDescribed(env, t, depth);
    } else {
      StructContinues(env, t, n - 1, depth);
      FieldsDescribed(env, t, n - 1, depth);
      var s, f := StructSchema(env, t, n - 1, depth).schema.value, t.fields[n - 1];
      assert t.fields[..n] == t.fields[..n - 1] + [f];
      TagOf(f);
      if Visited(f) {
        ShownFieldDescribed(env, t.fields[..n - 1], f, depth, s, SchemaFor(env, f.fieldType, depth).schema.value);
      } else {
        HiddenFieldDescribed(env, t.fields[..n - 1], f, depth, s);
      }
    }
  }

  lemma NoFieldsDescribed(env: Env, t: GoType, depth: nat)
    requires t.Struct?
    ensures Built(StructSchema(env, t, 0, depth))
    ensures Describes(env, t.fields[..0], depth, StructSchema(env, t, 0, depth).schema.value)
  {
    assert RequiresAt([], [], []);
  }

  lemma HiddenFieldDescribed(env: Env, fields: seq<Field>, f: Field, depth: nat, s: Schema)
    requires Describes(env, fields, depth, s) && !Shown(f)
    ensures Describes(env, fields + [f], depth, s)
  {
    hide Shown, HasName, MayBeOmitted, SchemaFor, DescribesProperties;
    var positions :| RequiresAt(fields, s.required, positions);
    RequiredExtended(fields, f, s.required, positions, "");
    HiddenProperty(env, fields, f, depth, s.properties);
  }

  lemma ShownFieldDescribed(env: Env, fields: seq<Field>, f: Field, depth: nat, s: Schema, schema: Schema)
    requires Describes(env, fields, depth, s) && Shown(f) && SchemaFor(env, f.fieldType, depth) == Ended(Some(schema))
    ensures Describes(env, fields + [f], depth, AddField(s, f, schema))
  {
    hide TagName, Shown, HasName, MayBeOmitted, SchemaFor, DescribesProperties, RequiresAt;
    TagOf(f);
    var name := TagName(f.jsonTag, f.name).0;
    var positions :| RequiresAt(fields, s.required, positions);
    RequiredExtended(fields, f, s.required, positions, name);
    ShownProperty(env, fields, f, depth, s.properties, name, schema);
    assert s.required + [] == s.required;
  }

  /** The positions grow by the field's, unless it is hidden or may be omitted. */
  lemma RequiredExtended(fields: seq<Field>, f: Field, required: seq<string>, positions: seq<nat>, name: string)
    requires RequiresAt(fields, required, positions) && (Shown(f) ==> HasName(f, name))
    ensures var more := fields + [f];
            if Shown(f) && !MayBeOmitted(f) then RequiresAt(more, required + [name], positions + [|fields|])
            else RequiresAt(more, required, positions)
  {
    hide Shown, HasName, MayBeOmitted;
    var more := fields + [f];
    assert forall i | 0 <= i < |fields| :: more[i] == fields[i];
    assert |fields| !in positions;
  }

  lemma HiddenProperty(env: Env, fields: seq<Field>, f: Field, depth: nat, properties: map<string, Schema>)
    requires DescribesProperties(env, fields, depth, properties) && !Shown(f)
    ensures DescribesProperties(env, fields + [f], depth, properties)
  {
    hide Shown, HasName, SchemaFor;
    var more := fields + [f];
    forall name
      ensures Declares(more, name) <==> Declares(fields, name)
    {
      DeclaresExtended(fields, f, name);
    }
    forall i, name | 0 <= i < |more| && LastOfName(more, i, name)
      ensures i < |fields| && LastOfName(fields, i, name)
    {
      assert forall j | i < j < |fields| :: more[j] == fields[j];
    }
  }

  lemma DeclaresExtended(fields: seq<Field>, f: Field, name: string)
    ensures Declares(fields + [f], name) <==> Declares(fields, name) || (Shown(f) && HasName(f, name))
  {
    hide Shown, HasName;
    var more := fields + [f];
    assert forall i | 0 <= i < |fields| :: more[i] == fields[i];
    assert more[|fields|] == f;
  }

  lemma ShownProperty(env: Env, fields: seq<Field>, f: Field, depth: nat, properties: map<string, Schema>, own: string,
                      schema: Schema)
    requires DescribesProperties(env, fields, depth, properties) && Shown(f) && HasName(f, own)
    requires SchemaFor(env, f.fieldType, depth) == Ended(Some(schema))
    ensures DescribesProperties(env, fields + [f], depth, properties[own := schema])
  {
    OneName(f, own);
    hide Shown, HasName, SchemaFor;
    var more, after := fields + [f], properties[own := schema];
    forall name
      ensures name in after <==> Declares(more, name)
    {
      DeclaresExtended(fields, f, name);
    }
    forall i, name | 0 <= i < |more| && LastOfName(more, i, name)
      ensures name in after && SchemaFor(env, more[i].fieldType, depth) == Ended(Some(after[name]))
    {
      assert more[|fields|] == f;
      if i < |fields| {
        assert forall j | i < j < |fields| :: more[j] == fields[j];
        assert LastOfName(fields, i, name) && name != own;
      }
    }
  }

  lemma OneName(f: Field, name: string)
    requires HasName(f, name)
    ensures forall other :: HasName(f, other) <==> other == name
  {
  }

  /** What the schema of a struct requires and declares, whenever the walk gives one. */
  lemma StructDescribed(env: Env, t: GoType, depth: nat)
    requires t.Struct? && Built(SchemaFor(env, t, depth))
    ensures Describes(env, t.fields, depth, SchemaFor(env, t, depth).schema.value)
  {
    hide Describes, StructSchema;
    FieldsDescribed(env, t, |t.fields|, depth);
    assert t.fields[..|t.fields|] == t.fields;
  }

  /** A name is required exactly when some shown field of that name may not be omitted. */
  /** The properties are exactly the names of shown fields, and a name only one field has is described by the walk
      of that field. */
  lemma PropertiesIff(env: Env, fields: seq<Field>, depth: nat, s: Schema, name: string)
    requires Describes(env, fields, depth, s)
    ensures name in s.properties <==> exists i :: 0 <= i < |fields| && Shown(fields[i]) && HasName(fields[i], name)
    ensures forall i | 0 <= i < |fields| && Shown(fields[i]) && HasName(fields[i], name)
                       && (forall j | 0 <= j < |fields| && j != i && Shown(fields[j]) :: !HasName(fields[j], name)) ::
              name in s.properties && SchemaFor(env, fields[i].fieldType, depth) == Ended(Some(s.properties[name]))
  {
    hide SchemaFor, RequiresAt, Shown, HasName;
    assert name in s.properties <==> Declares(fields, name);
    forall i | 0 <= i < |fields| && Shown(fields[i]) && HasName(fields[i], name)
               && (forall j | 0 <= j < |fields| && j != i && Shown(fields[j]) :: !HasName(fields[j], name))
      ensures name in s.properties && SchemaFor(env, fields[i].fieldType, depth) == Ended(Some(s.properties[name]))
    {
      assert LastOfName(fields, i, name);
    }
  }

  lemma RequiredIff(env: Env, fields: seq<Field>, depth: nat, s: Schema, name: string)
    requires Describes(env, fields, depth, s)
    ensures name in s.required <==>
              exists i :: 0 <= i < |fields| && Shown(fields[i]) && HasName(fields[i], name) && !MayBeOmitted(fields[i])
  {
    hide Shown, HasName, MayBeOmitted, DescribesProperties, RequiresAt;
    var positions :| RequiresAt(fields, s.required, positions);
    if name in s.required {
      var i := RequiredField(fields, s.required, positions, name);
    }
    if i: nat :| i < |fields| && Shown(fields[i]) && HasName(fields[i], name) && !MayBeOmitted(fields[i]) {
      FieldRequired(fields, s.required, positions, i, name);
    }
  }

  lemma RequiredField(fields: seq<Field>, required: seq<string>, positions: seq<nat>, name: string) returns (i: nat)
    requires RequiresAt(fields, required, positions) && name in required
    ensures i < |fields| && Shown(fields[i]) && HasName(fields[i], name) && !MayBeOmitted(fields[i])
  {
    hide Shown, HasName, MayBeOmitted;
    var k :| 0 <= k < |required| && required[k] == name;
    i := positions[k];
    assert i in positions;
  }

  lemma FieldRequired(fields: seq<Field>, required: seq<string>, positions: seq<nat>, i: nat, name: string)
    requires RequiresAt(fields, required, positions)
    requires i < |fields| && Shown(fields[i]) && HasName(fields[i], name) && !MayBeOmitted(fields[i])
    ensures name in required
  {
    hide Shown, HasName, MayBeOmitted;
    assert i in positions;
    var k :| 0 <= k < |positions| && positions[k] == i;
    OneName(fields[i], name);
    assert required[k] == name;
  }

  /** The schema of a type that is no struct, by what kind of type it is. */
  lemma SchemaSays(env: Env, t: GoType, depth: nat)
    requires Built(SchemaFor(env, t, depth)) && !t.Struct?
    ensures var s := SchemaFor(env, t, depth).schema.value;
            match t
            case Basic(kind) =>
              && s.properties == map[] && s.required == [] && s.items == None && s.description == ""
              && (s.kind == "boolean" <==> kind.BoolKind?)
                  && (s.kind == "string" <==> kind.StringKind? || kind.OtherKind?)
              && (s.kind == "integer" <==> kind.IntKind? || kind.Int32Kind? || kind.Int64Kind?)
              && (s.kind == "number" <==> kind.Float32Kind? || kind.Float64Kind?)
              && (s.format == "int32" <==> kind.IntKind? || kind.Int32Kind?)
                  && (s.format == "int64" <==> kind.Int64Kind?)
              && (s.format == "float" <==> kind.Float32Kind?) && (s.format == "double" <==> kind.Float64Kind?)
              && (s.format == "" <==> kind.BoolKind? || kind.StringKind? || kind.OtherKind?)
            case Slice(e) => s == Schema("array", "", "", map[], s.items, [])
                && SchemaFor(env, e, depth) == Ended(s.items)
            case Named(pkg, name) =>
              if pkg == "time" && name == "Time" then s == Schema("string", "date-time", "", map[], None, [])
              else depth > 0 && TypeName(pkg, name) in env
                   && SchemaFor(env, env[TypeName(pkg, name)], depth - 1) == Ended(Some(s))
            case Alias(r) => if r.Interface? then s == Schema("object", "", "", map[], None, [])
                             else SchemaFor(env, r, depth) == Ended(Some(s))
            case Pointer(p) => SchemaFor(env, p, depth) == Ended(Some(s))
            case Interface => s == Schema("object", "", "", map[], None, [])
            case MapType => s == Schema("object", "", "", map[], None, [])
            case Unsupported => false
  {
    KindsDiffer();
  }

  lemma KindsDiffer()
    ensures NoDup(["boolean", "integer", "number", "string"])
    ensures NoDup(["", "int32", "int64", "float", "double"])
  {
    assert "boolean"[0] == 'b' && "integer"[0] == 'i' && "number"[0] == 'n' && "string"[0] == 's';
    assert "int32"[3] == '3' && "int64"[3] == '6' && "float"[0] == 'f' && "double"[0] == 'd' && "int32"[0] == 'i';
    assert "int64"[0] == 'i';
  }

  /** In every part of the schema, what is required is declared. */
  ghost predicate RequiredDeclared(s: Schema) {
    && (forall name | name in s.required :: name in s.properties)
    && (forall k | k in s.properties :: RequiredDeclared(s.properties[k]))
    && (s.items.Some? ==> RequiredDeclared(s.items.value))
  }

  /** Required properties are always declared, at every level of the schema. */
  lemma {:induction false} SchemaForRequired(env: Env, t: GoType, depth: nat)
    ensures var w := SchemaFor(env, t, depth); Built(w) ==> RequiredDeclared(w.schema.value)
    decreases depth, t
  {
    match t
    case Slice(e) => SchemaForRequired(env, e, depth);
    case Named(pkg, name) =>
      if !IsTimeTime(t) && depth > 0 && TypeName(pkg, name) in env {
        SchemaForRequired(env, env[TypeName(pkg, name)], depth - 1);
      }
    case Alias(r) =>
      if !r.Interface? {
        SchemaForRequired(env, r, depth);
      }
    case Pointer(p) => SchemaForRequired(env, p, depth);
    case Struct(fields) => StructRequired(env, t, |fields|, depth);
    case _ =>
  }

  lemma {:induction false} StructRequired(env: Env, t: GoType, n: nat, depth: nat)
    requires t.Struct? && n <= |t.fields|
    ensures var w := StructSchema(env, t, n, depth); Built(w) ==> RequiredDeclared(w.schema.value)
    decreases depth, t, 0, n
  {
    if n > 0 {
      StructRequired(env, t, n - 1, depth);
      if Visited(t.fields[n - 1]) {
        SchemaForRequired(env, t.fields[n - 1].fieldType, depth);
      }
    }
  }

  // ---------------------------------------------------------------- the YAML form

  /** A part is emitted only when the schema has it. */
  function Part(present: bool, key: string, value: Node): seq<Entry> {
    if present then [Entry(key, value)] else []
  }

  function StrList(texts: seq<string>): Node {
    Sequence(seq(|texts|, i requires 0 <= i < |texts| => Str(texts[i])))
  }

  ghost function PropertiesNode(s: Schema): Node
    decreases s, 1
  {
    Mapping(PropertyEntries(s, SortedKeys(s.properties.Keys)))
  }

  ghost function ItemsNode(s: Schema): Node
    decreases s, 0
  {
    match s.items case None => Mapping([]) case Some(items) => SchemaToNode(items)
  }

  ghost function SchemaToNode(s: Schema): (n: Node)
    ensures n.Mapping?
    decreases s, 2
  {
    Mapping(
      Part(s.kind != "", "type", Str(s.kind)) + Part(s.format != "", "format", Str(s.format))
      + Part(s.description != "", "description", Str(s.description))
      + Part(s.properties != map[], "properties", PropertiesNode(s))
      + Part(s.required != [], "required", StrList(s.required))
      + Part(s.items.Some?, "items", ItemsNode(s)))
  }

  ghost function PropertyEntries(s: Schema, keys: seq<string>): (entries: seq<Entry>)
    ensures |entries| == |keys|
    decreases s, 0
  {
    seq(|keys|, i requires 0 <= i < |keys| =>
      Entry(keys[i], if keys[i] in s.properties then SchemaToNode(s.properties[keys[i]]) else Mapping([])))
  }

  /** Emits a schema, visiting its property map in arbitrary order. */
  method EmitSchema(s: Schema) returns (n: Node)
    ensures n == SchemaToNode(s)
    decreases s, 1
  {
    hide PropertiesNode, ItemsNode, StrList;
    var entries: seq<Entry> := [];
    if s.kind != "" {
      entries := AddScalar(entries, "type", s.kind);
    }
    assert entries == Part(s.kind != "", "type", Str(s.kind));
    entries := AddWhen(s.format != "", entries, "format", Str(s.format));
    entries := AddWhen(s.description != "", entries, "description", Str(s.description));
    if s.properties != map[] {
      var props := EmitProperties(s);
      entries := AddMapping(entries, "properties", props);
    } else {
      assert entries + [] == entries;
    }
    if s.required != [] {
      var required := EmitRequired(s.required);
      entries := AddMapping(entries, "required", required);
    } else {
      assert entries + [] == entries;
    }
    if s.items.Some? {
      var items := EmitSchema(s.items.value);
      ItemsOf(s);
      entries := AddMapping(entries, "items", items);
    } else {
      assert entries + [] == entries;
    }
    n := Mapping(entries);
  }

  method AddWhen(present: bool, entries: seq<Entry>, key: string, value: Node) returns (r: seq<Entry>)
    ensures r == entries + Part(present, key, value)
  {
    r := entries;
    if present {
      r := AddMapping(entries, key, value);
    } else {
      assert entries + [] == entries;
    }
  }

  method EmitRequired(texts: seq<string>) returns (n: Node)
    ensures n == StrList(texts)
  {
    var required: seq<Node> := [];
    for i := 0 to |texts|
      invariant |required| == i && forall j :: 0 <= j < i ==> required[j] == Str(texts[j])
    {
      required := required + [Str(texts[i])];
    }
    assert required == StrList(texts).items;
    n := Sequence(required);
  }

  method EmitProperties(s: Schema) returns (n: Node)
    ensures n == PropertiesNode(s)
    decreases s, 0
  {
    hide *;
    var keys := KeyList(s.properties.Keys);
    SortedKeysMembers(s.properties.Keys);
    ghost var all := PropertyEntries(s, keys);
    var entries: seq<Entry> := [];
    for i := 0 to |keys|
      invariant entries == all[..i]
    {
      assert keys[i] in keys;
      PropertyAt(s, keys, i);
      var prop := EmitSchema(s.properties[keys[i]]);
      entries := entries + [Entry(keys[i], prop)];
      assert all[i] == Entry(keys[i], prop);
    }
    assert all[..|keys|] == all;
    PropertiesNodeIs(s);
    n := Mapping(entries);
  }

  lemma PropertiesNodeIs(s: Schema)
    ensures PropertiesNode(s) == Mapping(PropertyEntries(s, SortedKeys(s.properties.Keys)))
  {
  }

  /** Property keys come out strictly sorted, whatever order the map was visited in. */
  lemma PropertiesSorted(s: Schema)
    ensures var keys := SortedKeys(s.properties.Keys);
            && StrictlySorted(keys) && KeysOf(PropertyEntries(s, keys)) == keys
            && (forall k :: k in keys <==> k in s.properties)
  {
    SortedKeysMembers(s.properties.Keys);
    var keys := SortedKeys(s.properties.Keys);
    assert KeysOf(PropertyEntries(s, keys)) == keys;
  }

  /** The value filed under a key, if there is one. */
  function Find(entries: seq<Entry>, key: string): Option<Node> {
    if entries == [] then None else if entries[0].key == key then Some(entries[0].value) else Find(entries[1..], key)
  }

  lemma {:induction false} FindConcat(a: seq<Entry>, b: seq<Entry>, key: string)
    ensures Find(a + b, key) == if Find(a, key).Some? then Find(a, key) else Find(b, key)
  {
    if a == [] {
      assert a + b == b;
    } else {
      assert (a + b)[1..] == a[1..] + b;
      FindConcat(a[1..], b, key);
    }
  }

  lemma FindInParts(a: seq<Entry>, b: seq<Entry>, c: seq<Entry>, d: seq<Entry>, e: seq<Entry>, f: seq<Entry>,
          key: string)
    ensures Find(a + b + c + d + e + f, key) ==
            if Find(a, key).Some? then Find(a, key) else if Find(b, key).Some? then Find(b, key)
            else if Find(c, key).Some? then Find(c, key) else if Find(d, key).Some? then Find(d, key)
            else if Find(e, key).Some? then Find(e, key) else Find(f, key)
  {
    FindConcat(a + b + c + d + e, f, key);
    FindConcat(a + b + c + d, e, key);
    FindConcat(a + b + c, d, key);
    FindConcat(a + b, c, key);
    FindConcat(a, b, key);
  }

  lemma FindPart(present: bool, k: string, value: Node, key: string)
    ensures Find(Part(present, k, value), key) == if present && k == key then Some(value) else None
  {
    var none: seq<Entry> := [];
    assert [Entry(k, value)][1..] == none;
  }

  /** What a schema's node holds under each of its six keys. */
  lemma NodeParts(s: Schema, key: string)
    ensures Find(SchemaToNode(s).entries, key) ==
            if key == "type" && s.kind != "" then Some(Str(s.kind))
            else if key == "format" && s.format != "" then Some(Str(s.format))
            else if key == "description" && s.description != "" then Some(Str(s.description))
            else if key == "properties" && s.properties != map[] then Some(PropertiesNode(s))
            else if key == "required" && s.required != [] then Some(StrList(s.required))
            else if key == "items" && s.items.Some? then Some(ItemsNode(s))
            else None
  {
    hide PropertiesNode, StrList, ItemsNode, Find, Part;
    FindInParts(Part(s.kind != "", "type", Str(s.kind)), Part(s.format != "", "format", Str(s.format)),
                Part(s.description != "", "description", Str(s.description)),
                    Part(s.properties != map[], "properties", PropertiesNode(s)),
                Part(s.required != [], "required", StrList(s.required)), Part(s.items.Some?, "items", ItemsNode(s)),
                    key);
    FindPart(s.kind != "", "type", Str(s.kind), key);
    FindPart(s.format != "", "format", Str(s.format), key);
    FindPart(s.description != "", "description", Str(s.description), key);
    FindPart(s.properties != map[], "properties", PropertiesNode(s), key);
    FindPart(s.required != [], "required", StrList(s.required), key);
    FindPart(s.items.Some?, "items", ItemsNode(s), key);
  }

  /** Equal nodes have equal parts. */
  lemma SameParts(s: Schema, t: Schema)
    requires SchemaToNode(s) == SchemaToNode(t)
    ensures s.kind == t.kind && s.format == t.format && s.description == t.description
    ensures (s.properties == map[] <==> t.properties == map[])
            && (s.properties != map[] ==> PropertiesNode(s) == PropertiesNode(t))
    ensures (s.required == [] <==> t.required == [])
            && (s.required != [] ==> StrList(s.required) == StrList(t.required))
    ensures (s.items.Some? <==> t.items.Some?) && (s.items.Some? ==> ItemsNode(s) == ItemsNode(t))
  {
    hide *;
    forall key { NodeParts(s, key); }
    forall key { NodeParts(t, key); }
    assert Find(SchemaToNode(s).entries, "type") == Find(SchemaToNode(t).entries, "type");
    assert Find(SchemaToNode(s).entries, "format") == Find(SchemaToNode(t).entries, "format");
    assert Find(SchemaToNode(s).entries, "description") == Find(SchemaToNode(t).entries, "description");
    assert Find(SchemaToNode(s).entries, "properties") == Find(SchemaToNode(t).entries, "properties");
    assert Find(SchemaToNode(s).entries, "required") == Find(SchemaToNode(t).entries, "required");
    assert Find(SchemaToNode(s).entries, "items") == Find(SchemaToNode(t).entries, "items");
    StrInjective(s.kind, t.kind);
    StrInjective(s.format, t.format);
    StrInjective(s.description, t.description);
  }

  lemma StrInjective(a: string, b: string)
    ensures Str(a) == Str(b) <==> a == b
  {
  }

  /** Different schemas never print alike. */
  lemma {:induction false} SchemaToNodeInjective(s: Schema, t: Schema)
    requires SchemaToNode(s) == SchemaToNode(t)
    ensures s == t
    decreases s
  {
    hide *;
    SameParts(s, t);
    SameRequired(s, t);
    SameProperties(s, t);
    if s.items.Some? {
      ItemsOf(s);
      ItemsOf(t);
      SchemaToNodeInjective(s.items.value, t.items.value);
    }
    forall k | k in s.properties
      ensures s.properties[k] == t.properties[k]
    {
      SchemaToNodeInjective(s.properties[k], t.properties[k]);
    }
    assert s.properties == t.properties;
  }

  lemma ItemsOf(s: Schema)
    requires s.items.Some?
    ensures ItemsNode(s) == SchemaToNode(s.items.value)
  {
  }

  lemma SameRequired(s: Schema, t: Schema)
    requires s.required == [] <==> t.required == []
    requires s.required != [] ==> StrList(s.required) == StrList(t.required)
    ensures s.required == t.required
  {
    if s.required != [] {
      var a, b := StrList(s.required).items, StrList(t.required).items;
      assert |a| == |b| && forall i :: 0 <= i < |a| ==> a[i] == Str(s.required[i]) && b[i] == Str(t.required[i]);
    }
  }

  lemma SameProperties(s: Schema, t: Schema)
    requires s.properties == map[] <==> t.properties == map[]
    requires s.properties != map[] ==> PropertiesNode(s) == PropertiesNode(t)
    ensures s.properties.Keys == t.properties.Keys
    ensures forall k | k in s.properties :: SchemaToNode(s.properties[k]) == SchemaToNode(t.properties[k])
  {
    if s.properties != map[] {
      SamePropertyKeys(s, t);
      forall k | k in s.properties
        ensures SchemaToNode(s.properties[k]) == SchemaToNode(t.properties[k])
      {
        SamePropertyValue(s, t, k);
      }
    }
  }

  lemma SamePropertyKeys(s: Schema, t: Schema)
    requires PropertiesNode(s) == PropertiesNode(t)
    ensures s.properties.Keys == t.properties.Keys
  {
    hide SchemaToNode, PropertyEntries, SortedKeys, StrictlySorted;
    PropertiesSorted(s);
    PropertiesSorted(t);
    var ks, kt := SortedKeys(s.properties.Keys), SortedKeys(t.properties.Keys);
    assert PropertyEntries(s, ks) == PropertyEntries(t, kt);
    assert ks == kt;
    forall k
      ensures k in s.properties <==> k in t.properties
    {
      assert k in ks <==> k in kt;
    }
  }

  lemma SamePropertyValue(s: Schema, t: Schema, k: string)
    requires PropertiesNode(s) == PropertiesNode(t) && s.properties.Keys == t.properties.Keys && k in s.properties
    ensures SchemaToNode(s.properties[k]) == SchemaToNode(t.properties[k])
  {
    var ks := SortedKeys(s.properties.Keys);
    SortedKeysMembers(s.properties.Keys);
    assert k in ks;
    var i :| 0 <= i < |ks| && ks[i] == k;
    PropertyAt(s, ks, i);
    PropertyAt(t, ks, i);
    hide SchemaToNode, PropertyEntries, SortedKeys;
    assert PropertyEntries(s, ks) == PropertyEntries(t, ks);
  }

  lemma PropertyAt(s: Schema, keys: seq<string>, i: nat)
    requires i < |keys|
    ensures PropertyEntries(s, keys)[i].key == keys[i]
    ensures keys[i] in s.properties ==> PropertyEntries(s, keys)[i].value == SchemaToNode(s.properties[keys[i]])
  {
  }

  /** A schema's node holds no reference. */
  lemma {:induction false} SchemaHasNoRef(s: Schema, ref: string)
    ensures !HasRef(SchemaToNode(s), ref)
    decreases s
  {
    if s.items.Some? {
      SchemaHasNoRef(s.items.value, ref);
    }
    forall k | k in s.properties { SchemaHasNoRef(s.properties[k], ref); }
    PropertiesHaveNoRef(s, ref);
    StrListHasNoRef(s.required, ref);
    PartsHaveNoRef(s, ref);
  }

  lemma PropertiesHaveNoRef(s: Schema, ref: string)
    requires forall k | k in s.properties :: !HasRef(SchemaToNode(s.properties[k]), ref)
    ensures !HasRef(PropertiesNode(s), ref)
  {
    var keys := SortedKeys(s.properties.Keys);
    PropertiesSorted(s);
    forall i | 0 <= i < |keys|
      ensures !EntryHasRef(PropertyEntries(s, keys)[i], ref)
    {
      assert keys[i] in keys;
      PropertyAt(s, keys, i);
      assert SchemaToNode(s.properties[keys[i]]).Mapping?;
    }
  }

  lemma StrListHasNoRef(texts: seq<string>, ref: string)
    ensures !HasRef(StrList(texts), ref)
  {
  }

  /** No part is filed under `$ref`, so a node has no reference its parts do not have. */
  lemma PartsHaveNoRef(s: Schema, ref: string)
    requires !HasRef(PropertiesNode(s), ref) && !HasRef(StrList(s.required), ref) && !HasRef(ItemsNode(s), ref)
    ensures !HasRef(SchemaToNode(s), ref)
  {
    var a, b, c := Part(s.kind != "", "type", Str(s.kind)), Part(s.format != "", "format", Str(s.format)),
        Part(s.description != "", "description", Str(s.description));
    var d, e, f := Part(s.properties != map[], "properties", PropertiesNode(s)),
        Part(s.required != [], "required", StrList(s.required)), Part(s.items.Some?, "items", ItemsNode(s));
    hide PropertiesNode, StrList, ItemsNode, Part, NoRefIn;
    NoRefPart(s.kind != "", "type", Str(s.kind), ref);
    NoRefPart(s.format != "", "format", Str(s.format), ref);
    NoRefPart(s.description != "", "description", Str(s.description), ref);
    NoRefPart(s.properties != map[], "properties", PropertiesNode(s), ref);
    NoRefPart(s.required != [], "required", StrList(s.required), ref);
    NoRefPart(s.items.Some?, "items", ItemsNode(s), ref);
    NoRefConcat(a, b, ref);
    NoRefConcat(a + b, c, ref);
    NoRefConcat(a + b + c, d, ref);
    NoRefConcat(a + b + c + d, e, ref);
    NoRefConcat(a + b + c + d + e, f, ref);
    NoRefMapping(a + b + c + d + e + f, ref);
  }

  ghost predicate NoRefIn(entries: seq<Entry>, ref: string) {
    forall i | 0 <= i < |entries| :: !EntryHasRef(entries[i], ref)
  }

  lemma NoRefPart(present: bool, key: string, value: Node, ref: string)
    requires key != "" && key[0] != '$' && !HasRef(value, ref)
    ensures NoRefIn(Part(present, key, value), ref)
  {
    assert "$ref"[0] == '$';
  }

  lemma NoRefConcat(a: seq<Entry>, b: seq<Entry>, ref: string)
    requires NoRefIn(a, ref) && NoRefIn(b, ref)
    ensures NoRefIn(a + b, ref)
  {
  }

  lemma NoRefMapping(entries: seq<Entry>, ref: string)
    requires NoRefIn(entries, ref)
    ensures !HasRef(Mapping(entries), ref)
  {
  }
}
