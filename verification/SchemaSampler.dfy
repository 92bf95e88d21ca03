/**
  The JSON Schema sampler of the command fixtures and what it promises: a
  sample that the schema accepts. References may be cyclic, so a call is
  followed for a number of nested calls; a call that returns within some number
  of them returns the same within any larger number.
 */
module SchemaSampler {
  import opened Wrappers
  import opened JsonPointer

  type Fields = map<string, Node>

  /** `Running`: the call is nested deeper than it was followed. */
  datatype Outcome = Returned(value: Node) | Threw | Running

  const STRING_SCHEMA: Fields := map["type" := Text("string")]

  function Get(s: Fields, key: string): Option<Node> { if key in s then Some(s[key]) else None }

  predicate IsList(v: Option<Node>) { v.Some? && v.value.List? }
  predicate IsRecord(v: Option<Node>) { v.Some? && v.value.Record? }
  predicate IsNumber(v: Option<Node>) { v.Some? && v.value.Number? }
  predicate IsText(v: Option<Node>) { v.Some? && v.value.Text? }

  /** A length given as a number; fractions are cut off and negative numbers count as none. */
  function AsLength(r: real): nat { if r <= 0.0 then 0 else r.Floor }

  function LengthOf(s: Fields, key: string): nat { if IsNumber(Get(s, key)) then AsLength(s[key].r) else 0 }

  // ----- the sampler -------------------------------------------------------

  function Union(s: Fields): seq<Node> {
    if IsList(Get(s, "anyOf")) then s["anyOf"].items
    else if IsList(Get(s, "oneOf")) then s["oneOf"].items
    else []
  }

  function Referenced(s: Fields, root: Fields): Option<Node> {
    if IsText(Get(s, "$ref")) && "#/" <= s["$ref"].s then Resolve(Record(root), s["$ref"].s) else None
  }

  function TypeOf(s: Fields): Option<Node> {
    if IsList(Get(s, "type")) then (if s["type"].items == [] then None else Some(s["type"].items[0])) else Get(s, "type")
  }

  function Properties(s: Fields): Fields { if IsRecord(Get(s, "properties")) then s["properties"].fields else map[] }

  function Required(s: Fields): set<string> {
    if IsList(Get(s, "required")) then set v | v in s["required"].items && v.Text? :: v.s else {}
  }

  function Sample(s: Fields, root: Fields, includeOptional: bool, depth: nat): Outcome
    decreases depth, 0
  {
    if depth == 0 then Running
    else if "const" in s then Returned(s["const"])
    else if Union(s) != [] && Union(s)[0].Record? then Sample(Union(s)[0].fields, root, includeOptional, depth - 1)
    else if IsRecord(Referenced(s, root)) then Sample(Referenced(s, root).value.fields, root, includeOptional, depth - 1)
    else if IsList(Get(s, "enum")) && s["enum"].items != [] then Returned(s["enum"].items[0])
    else match TypeOf(s)
      case Some(Text("object")) => SampleObject(s, root, includeOptional, depth - 1)
      case Some(Text("array")) => SampleArray(s, root, includeOptional, depth - 1)
      case Some(Text("number")) => Returned(Number(SampleNumber(s)))
      case Some(Text("integer")) => Returned(Number(SampleNumber(s)))
      case Some(Text("boolean")) => Returned(Flag(true))
      case Some(Text("null")) => Returned(Nil)
      case _ => Returned(Text(SampleText(s)))
  }

  /** A property's schema: absent and null count as a string, and a scalar makes the original throw. */
  function SampleProperty(v: Option<Node>, root: Fields, includeOptional: bool, below: nat): Outcome
    decreases below, 1
  {
    match v
    case None => Sample(STRING_SCHEMA, root, includeOptional, below)
    case Some(Nil) => Sample(STRING_SCHEMA, root, includeOptional, below)
    case Some(Record(fields)) => Sample(fields, root, includeOptional, below)
    case Some(List(_)) => Sample(map[], root, includeOptional, below)
    case _ => Threw
  }

  function SampledKeys(s: Fields, includeOptional: bool): set<string> {
    if includeOptional then Properties(s).Keys else Required(s)
  }

  function SampleObject(s: Fields, root: Fields, includeOptional: bool, below: nat): Outcome
    decreases below, 2
  {
    var properties, keys := Properties(s), SampledKeys(s, includeOptional);
    if forall key | key in keys :: SampleProperty(Get(properties, key), root, includeOptional, below).Returned? then
      Returned(Record(map key | key in keys :: SampleProperty(Get(properties, key), root, includeOptional, below).value))
    else if exists key | key in keys :: SampleProperty(Get(properties, key), root, includeOptional, below).Threw? then Threw
    else Running
  }

  function SampleItem(v: Node, root: Fields, includeOptional: bool, below: nat): Outcome
    decreases below, 1
  {
    if v.Record? then Sample(v.fields, root, includeOptional, below) else Returned(Nil)
  }

  function SampleItems(schemas: seq<Node>, root: Fields, includeOptional: bool, below: nat): Outcome
    decreases below, 2
  {
    if forall i | 0 <= i < |schemas| :: SampleItem(schemas[i], root, includeOptional, below).Returned? then
      Returned(List(seq(|schemas|, i requires 0 <= i < |schemas| => SampleItem(schemas[i], root, includeOptional, below).value)))
    else if exists i :: 0 <= i < |schemas| && SampleItem(schemas[i], root, includeOptional, below).Threw? then Threw
    else Running
  }

  /** The schemas of the items that a sample array gets. */
  function ItemSchemas(s: Fields): seq<Node> {
    if IsList(Get(s, "prefixItems")) then s["prefixItems"].items
    else if IsList(Get(s, "items")) then s["items"].items
    else seq(LengthOf(s, "minItems"), i => if IsRecord(Get(s, "items")) then s["items"] else Record(STRING_SCHEMA))
  }

  function SampleArray(s: Fields, root: Fields, includeOptional: bool, below: nat): Outcome
    decreases below, 3
  {
    SampleItems(ItemSchemas(s), root, includeOptional, below)
  }

  function SampleNumber(s: Fields): real {
    if IsNumber(Get(s, "minimum")) then s["minimum"].r
    else if IsNumber(Get(s, "exclusiveMinimum")) then s["exclusiveMinimum"].r + 1.0
    else 1.0
  }

  function Repeat(c: char, n: nat): (r: string)
    ensures |r| == n
  {
    seq(n, i => c)
  }

  /** The least number of quarters that reaches `r`. */
  function WholeQuarters(r: real): nat
    requires r > 0.0
  {
    -((-r / 4.0).Floor)
  }

  function SampleText(s: Fields): string {
    var minimum := LengthOf(s, "minLength");
    match Get(s, "format")
    case Some(Text("date-time")) => "2026-01-01T00:00:00.000Z"
    case Some(Text("date")) => "2026-01-01"
    case Some(Text("time")) => "00:00:00Z"
    case Some(Text("uuid")) => "00000000-0000-4000-8000-000000000000"
    case Some(Text("uri")) => "https://example.com/"
    case Some(Text("url")) => "https://example.com/"
    case _ =>
      match Get(s, "pattern")
      case Some(Text("^[A-Za-z0-9+/]+={0,2}$")) =>
        var wanted := if IsNumber(Get(s, "minLength")) && s["minLength"].r > 4.0 then s["minLength"].r else 4.0;
        Repeat('A', WholeQuarters(wanted) * 4)
      case Some(Text("^[a-f0-9]{64}$")) => Repeat('a', 64)
      case Some(Text("^human:[^\\s:][^\\s]*$")) => "human:sample"
      case _ => "sample" + Repeat('x', if minimum > 6 then minimum - 6 else 0)
  }

  // ----- following a call further ------------------------------------------

  /** A call that is over stays as it is, however much further it is followed. */
  lemma {:induction false} OverIsOver(s: Fields, root: Fields, includeOptional: bool, depth: nat, more: nat)
    requires depth <= more && !Sample(s, root, includeOptional, depth).Running?
    ensures Sample(s, root, includeOptional, more) == Sample(s, root, includeOptional, depth)
    decreases depth, 0
  {
    if "const" in s {
    } else if Union(s) != [] && Union(s)[0].Record? {
      OverIsOver(Union(s)[0].fields, root, includeOptional, depth - 1, more - 1);
    } else if IsRecord(Referenced(s, root)) {
      OverIsOver(Referenced(s, root).value.fields, root, includeOptional, depth - 1, more - 1);
    } else if IsList(Get(s, "enum")) && s["enum"].items != [] {
    } else if TypeOf(s) == Some(Text("object")) {
      ObjectIsOver(s, root, includeOptional, depth - 1, more - 1);
    } else if TypeOf(s) == Some(Text("array")) {
      ItemsAreOver(ItemSchemas(s), root, includeOptional, depth - 1, more - 1);
    }
  }

  lemma {:induction false} PropertyIsOver(v: Option<Node>, root: Fields, includeOptional: bool, below: nat, more: nat)
    requires below <= more && !SampleProperty(v, root, includeOptional, below).Running?
    ensures SampleProperty(v, root, includeOptional, more) == SampleProperty(v, root, includeOptional, below)
    decreases below, 1
  {
    match v
    case None => OverIsOver(STRING_SCHEMA, root, includeOptional, below, more);
    case Some(Nil) => OverIsOver(STRING_SCHEMA, root, includeOptional, below, more);
    case Some(Record(fields)) => OverIsOver(fields, root, includeOptional, below, more);
    case Some(List(_)) => OverIsOver(map[], root, includeOptional, below, more);
    case _ =>
  }

  lemma {:induction false} ObjectIsOver(s: Fields, root: Fields, includeOptional: bool, below: nat, more: nat)
    requires below <= more && !SampleObject(s, root, includeOptional, below).Running?
    ensures SampleObject(s, root, includeOptional, more) == SampleObject(s, root, includeOptional, below)
    decreases below, 2
  {
    var properties, keys := Properties(s), SampledKeys(s, includeOptional);
    forall key | key in keys && !SampleProperty(Get(properties, key), root, includeOptional, below).Running?
      ensures SampleProperty(Get(properties, key), root, includeOptional, more)
              == SampleProperty(Get(properties, key), root, includeOptional, below)
    {
      PropertyIsOver(Get(properties, key), root, includeOptional, below, more);
    }
    if SampleObject(s, root, includeOptional, below).Returned? {
      assert (map key | key in keys :: SampleProperty(Get(properties, key), root, includeOptional, more).value)
          == (map key | key in keys :: SampleProperty(Get(properties, key), root, includeOptional, below).value);
    } else {
      var key :| key in keys && SampleProperty(Get(properties, key), root, includeOptional, below).Threw?;
      assert SampleProperty(Get(properties, key), root, includeOptional, more).Threw?;
    }
  }

  lemma {:induction false} ItemsAreOver(schemas: seq<Node>, root: Fields, includeOptional: bool, below: nat, more: nat)
    requires below <= more && !SampleItems(schemas, root, includeOptional, below).Running?
    ensures SampleItems(schemas, root, includeOptional, more) == SampleItems(schemas, root, includeOptional, below)
    decreases below, 2
  {
    forall i | 0 <= i < |schemas| && !SampleItem(schemas[i], root, includeOptional, below).Running?
      ensures SampleItem(schemas[i], root, includeOptional, more) == SampleItem(schemas[i], root, includeOptional, below)
    {
      if schemas[i].Record? {
        OverIsOver(schemas[i].fields, root, includeOptional, below, more);
      }
    }
    var now, later := SampleItems(schemas, root, includeOptional, below), SampleItems(schemas, root, includeOptional, more);
    if now.Returned? {
      assert later.value.items == now.value.items;
    } else {
      var i :| 0 <= i < |schemas| && SampleItem(schemas[i], root, includeOptional, below).Threw?;
      assert SampleItem(schemas[i], root, includeOptional, more).Threw?;
    }
  }

  // ----- which keys and how many items a sample has --------------------------

  /** Nothing in the schema comes before its type. */
  predicate ByType(s: Fields, root: Fields, name: string) {
    && "const" !in s && !(Union(s) != [] && Union(s)[0].Record?) && !IsRecord(Referenced(s, root))
    && !(IsList(Get(s, "enum")) && s["enum"].items != []) && TypeOf(s) == Some(Text(name))
  }

  /** A sampled object has all properties, or just the required ones, each with a sample of its own schema. */
  lemma SampledObjectIsExact(s: Fields, root: Fields, includeOptional: bool, depth: nat)
    requires depth > 0 && ByType(s, root, "object") && Sample(s, root, includeOptional, depth).Returned?
    ensures Sample(s, root, includeOptional, depth).value.Record?
    ensures var fields := Sample(s, root, includeOptional, depth).value.fields;
            && (includeOptional ==> forall key ::
                  key in fields <==> "properties" in s && s["properties"].Record? && key in s["properties"].fields)
            && (!includeOptional ==> forall key ::
                  key in fields <==> "required" in s && s["required"].List? && Text(key) in s["required"].items)
            && forall key | key in fields ::
                 SampleProperty(Get(Properties(s), key), root, includeOptional, depth - 1) == Returned(fields[key])
  {
    RequiredIsListed(s);
    SampledByType(s, root, includeOptional, depth);
    SampledFields(s, root, includeOptional, depth - 1);
  }

  lemma SampledByType(s: Fields, root: Fields, includeOptional: bool, depth: nat)
    requires depth > 0
    ensures ByType(s, root, "object") ==>
              Sample(s, root, includeOptional, depth) == SampleObject(s, root, includeOptional, depth - 1)
    ensures ByType(s, root, "array") ==>
              Sample(s, root, includeOptional, depth) == SampleItems(ItemSchemas(s), root, includeOptional, depth - 1)
  {
  }

  lemma RequiredIsListed(s: Fields)
    ensures forall key :: key in Required(s) <==> "required" in s && s["required"].List? && Text(key) in s["required"].items
  {
    if IsList(Get(s, "required")) {
      forall key ensures key in Required(s) <==> Text(key) in s["required"].items {
        if Text(key) in s["required"].items { assert Text(key).s in Required(s); }
      }
    }
  }

  lemma SampledFields(s: Fields, root: Fields, includeOptional: bool, below: nat)
    requires SampleObject(s, root, includeOptional, below).Returned?
    ensures SampleObject(s, root, includeOptional, below).value.Record?
    ensures var fields := SampleObject(s, root, includeOptional, below).value.fields;
            && fields.Keys == SampledKeys(s, includeOptional)
            && forall key | key in fields ::
                 SampleProperty(Get(Properties(s), key), root, includeOptional, below) == Returned(fields[key])
  {
  }

  /** A sampled array has an item for every schema given by position, or else as many as are asked for. */
  lemma SampledArrayIsExact(s: Fields, root: Fields, includeOptional: bool, depth: nat)
    requires depth > 0 && ByType(s, root, "array") && Sample(s, root, includeOptional, depth).Returned?
    ensures Sample(s, root, includeOptional, depth).value.List?
    ensures var items := Sample(s, root, includeOptional, depth).value.items;
            if IsList(Get(s, "prefixItems")) then |items| == |s["prefixItems"].items|
            else if IsList(Get(s, "items")) then |items| == |s["items"].items|
            else if IsNumber(Get(s, "minItems")) && s["minItems"].r >= 0.0 then
              |items| as real <= s["minItems"].r < |items| as real + 1.0
            else items == []
  {
    SampledByType(s, root, includeOptional, depth);
  }

  // ----- what a schema accepts ---------------------------------------------

  predicate HasType(name: string, x: Node) {
    match name
    case "object" => x.Record?
    case "array" => x.List?
    case "string" => x.Text?
    case "number" => x.Number?
    case "integer" => x.Number? && x.r.Floor as real == x.r
    case "boolean" => x.Flag?
    case "null" => x.Nil?
    case _ => false
  }

  predicate TypeAccepts(t: Node, x: Node) {
    match t
    case Text(name) => HasType(name, x)
    case List(names) => exists i :: 0 <= i < |names| && names[i].Text? && HasType(names[i].s, x)
    case _ => false
  }

  /** The keywords about single values: no other schema is involved. */
  predicate ValueAccepts(s: Fields, x: Node) {
    && ("const" in s ==> x == s["const"])
    && (IsList(Get(s, "enum")) ==> x in s["enum"].items)
    && ("type" in s ==> TypeAccepts(s["type"], x))
    && (x.Record? ==> Required(s) <= x.fields.Keys)
    && (x.Record? && Get(s, "additionalProperties") == Some(Flag(false)) ==> x.fields.Keys <= Properties(s).Keys)
    && (x.List? && IsNumber(Get(s, "minItems")) ==> |x.items| as real >= s["minItems"].r)
    && (x.Number? && IsNumber(Get(s, "minimum")) ==> x.r >= s["minimum"].r)
    && (x.Number? && IsNumber(Get(s, "exclusiveMinimum")) ==> x.r > s["exclusiveMinimum"].r)
    && (x.Text? && IsNumber(Get(s, "minLength")) ==> |x.s| as real >= s["minLength"].r)
  }

  /** The schema that item `i` has to meet, if there is one. */
  function ItemSchemaAt(s: Fields, i: nat): Option<Node> {
    var items := Get(s, "items");
    if IsList(Get(s, "prefixItems")) && i < |s["prefixItems"].items| then Some(s["prefixItems"].items[i])
    else if IsList(items) then (if i < |items.value.items| then Some(items.value.items[i]) else None)
    else if IsRecord(items) then items
    else None
  }

  /** The schema accepts `x`, and `depth` nested schemas are enough to see it. */
  ghost predicate Accepts(s: Fields, root: Fields, x: Node, depth: nat)
    decreases depth, 0
  {
    && depth > 0 && ValueAccepts(s, x)
    && (IsList(Get(s, "anyOf")) ==>
          exists i :: 0 <= i < |s["anyOf"].items| && NodeAccepts(s["anyOf"].items[i], root, x, depth - 1))
    && (IsList(Get(s, "oneOf")) ==> 
          exists i :: 0 <= i < |s["oneOf"].items| && NodeAccepts(s["oneOf"].items[i], root, x, depth - 1)
                      && OthersReject(s["oneOf"].items, i, root, x, depth - 1))
    && ("$ref" in s ==> Referenced(s, root).Some? && NodeAccepts(Referenced(s, root).value, root, x, depth - 1))
    && (x.Record? ==> forall key | key in Properties(s) && key in x.fields ::
          NodeAccepts(Properties(s)[key], root, x.fields[key], depth - 1))
    && (x.List? ==> forall i | 0 <= i < |x.items| && ItemSchemaAt(s, i).Some? ::
          NodeAccepts(ItemSchemaAt(s, i).value, root, x.items[i], depth - 1))
  }

  ghost predicate NodeAccepts(v: Node, root: Fields, x: Node, below: nat)
    decreases below, 1
  {
    v == Flag(true) || (v.Record? && Accepts(v.fields, root, x, below))
  }

  /** Every branch but `i` is seen to reject `x`. */
  ghost predicate OthersReject(branches: seq<Node>, i: nat, root: Fields, x: Node, below: nat)
    decreases below, 2
  {
    forall j | 0 <= j < |branches| && j != i :: NodeRejects(branches[j], root, x, below)
  }

  /** The schema is seen to reject `x` at some keyword, within `depth` nested schemas. */
  ghost predicate Rejects(s: Fields, root: Fields, x: Node, depth: nat)
    decreases depth, 0
  {
    && depth > 0
    && (|| !ValueAccepts(s, x)
        || (IsList(Get(s, "anyOf")) && forall i | 0 <= i < |s["anyOf"].items| :: NodeRejects(s["anyOf"].items[i], root, x, depth - 1))
        || (IsList(Get(s, "oneOf")) && forall i | 0 <= i < |s["oneOf"].items| :: NodeRejects(s["oneOf"].items[i], root, x, depth - 1))
        || ("$ref" in s && Referenced(s, root).Some? && NodeRejects(Referenced(s, root).value, root, x, depth - 1))
        || (x.Record? && exists key | key in Properties(s) && key in x.fields ::
              NodeRejects(Properties(s)[key], root, x.fields[key], depth - 1))
        || (x.List? && exists i | 0 <= i < |x.items| && ItemSchemaAt(s, i).Some? ::
              NodeRejects(ItemSchemaAt(s, i).value, root, x.items[i], depth - 1)))
  }

  ghost predicate NodeRejects(v: Node, root: Fields, x: Node, below: nat)
    decreases below, 1
  {
    v == Flag(false) || (v.Record? && Rejects(v.fields, root, x, below))
  }

  /** No schema both accepts and rejects a value. */
  lemma {:induction false} NothingIsBoth(s: Fields, root: Fields, x: Node, depth: nat, other: nat)
    requires Accepts(s, root, x, depth)
    ensures !Rejects(s, root, x, other)
    decreases depth, 0
  {
    if Rejects(s, root, x, other) {
      if IsList(Get(s, "anyOf")) {
        var i :| 0 <= i < |s["anyOf"].items| && NodeAccepts(s["anyOf"].items[i], root, x, depth - 1);
        NodeIsNotBoth(s["anyOf"].items[i], root, x, depth - 1, other - 1);
      }
      if IsList(Get(s, "oneOf")) {
        var i :| 0 <= i < |s["oneOf"].items| && NodeAccepts(s["oneOf"].items[i], root, x, depth - 1);
        NodeIsNotBoth(s["oneOf"].items[i], root, x, depth - 1, other - 1);
      }
      if "$ref" in s {
        NodeIsNotBoth(Referenced(s, root).value, root, x, depth - 1, other - 1);
      }
      if x.Record? {
        forall key | key in Properties(s) && key in x.fields
          ensures !NodeRejects(Properties(s)[key], root, x.fields[key], other - 1)
        {
          NodeIsNotBoth(Properties(s)[key], root, x.fields[key], depth - 1, other - 1);
        }
      }
      if x.List? {
        forall i | 0 <= i < |x.items| && ItemSchemaAt(s, i).Some?
          ensures !NodeRejects(ItemSchemaAt(s, i).value, root, x.items[i], other - 1)
        {
          NodeIsNotBoth(ItemSchemaAt(s, i).value, root, x.items[i], depth - 1, other - 1);
        }
      }
      assert false;
    }
  }

  lemma {:induction false} NodeIsNotBoth(v: Node, root: Fields, x: Node, below: nat, other: nat)
    requires NodeAccepts(v, root, x, below)
    ensures !NodeRejects(v, root, x, other)
    decreases below, 1
  {
    if v.Record? {
      NothingIsBoth(v.fields, root, x, below, other);
    }
  }

  // ----- the supported fragment --------------------------------------------

  /** Assertions the sampler does not look at. */
  const UNSUPPORTED: set<string> :=
    {"allOf", "not", "if", "then", "else", "maximum", "exclusiveMaximum", "multipleOf", "maxLength", "maxItems",
     "uniqueItems", "contains", "minProperties", "maxProperties", "patternProperties", "propertyNames",
     "dependentRequired", "dependentSchemas", "unevaluatedItems", "unevaluatedProperties"}

  /** Neither const, union, reference nor enumeration decides the sample. */
  predicate DecidedByType(s: Fields) {
    "const" !in s && "anyOf" !in s && "oneOf" !in s && "$ref" !in s && "enum" !in s
  }

  ghost predicate SupportedNode(v: Node, root: Fields, includeOptional: bool, below: nat)
    decreases below, 1
  {
    v.Record? && Supported(v.fields, root, includeOptional, below)
  }

  /** The fragment on which a sample is promised, with at most `depth` schemas inside each other. */
  ghost predicate Supported(s: Fields, root: Fields, includeOptional: bool, depth: nat)
    decreases depth, 0
  {
    && depth > 0 && s.Keys !! UNSUPPORTED
    && if "const" in s then
         AcceptsAlone(s, s["const"]) && "anyOf" !in s && "oneOf" !in s && "$ref" !in s
       else if "anyOf" in s then
         && IsList(Get(s, "anyOf")) && s["anyOf"].items != [] && "oneOf" !in s && BareUnion(s)
         && SupportedNode(s["anyOf"].items[0], root, includeOptional, depth - 1)
       else if "oneOf" in s then
         && IsList(Get(s, "oneOf")) && s["oneOf"].items != [] && BareUnion(s)
         && SupportedNode(s["oneOf"].items[0], root, includeOptional, depth - 1)
         && FirstIsOnly(s["oneOf"].items, root, includeOptional, depth - 1)
       else if "$ref" in s then
         && Bare(s) && Referenced(s, root).Some? && SupportedNode(Referenced(s, root).value, root, includeOptional, depth - 1)
       else if "enum" in s then
         && IsList(Get(s, "enum")) && s["enum"].items != []
         && AcceptsAlone(s, s["enum"].items[0])
       else
         match TypeOf(s)
         case Some(Text("object")) => SupportedObject(s, root, includeOptional, depth - 1)
         case Some(Text("array")) => SupportedArray(s, root, includeOptional, depth - 1)
         case Some(Text("number")) => "minimum" !in s || "exclusiveMinimum" !in s
         case Some(Text("integer")) =>
           ("minimum" !in s || "exclusiveMinimum" !in s) && SampleNumber(s).Floor as real == SampleNumber(s)
         case Some(Text("boolean")) => true
         case Some(Text("null")) => true
         case Some(Text("string")) => "format" !in s && "pattern" !in s && WholeNumber(s, "minLength")
         case _ => false
  }

  /** The schema accepts `x` without asking any other schema. */
  predicate AcceptsAlone(s: Fields, x: Node) {
    && ValueAccepts(s, x) && (x.Record? ==> "properties" !in s)
    && (x.List? ==> "items" !in s && "prefixItems" !in s)
  }

  /** No keyword about the value itself stands beside a union or a reference. */
  predicate Bare(s: Fields) {
    && "type" !in s && "enum" !in s && "properties" !in s && "required" !in s && "additionalProperties" !in s
    && "items" !in s && "prefixItems" !in s && "minItems" !in s
    && "minimum" !in s && "exclusiveMinimum" !in s && "minLength" !in s
  }

  predicate BareUnion(s: Fields) { Bare(s) && "$ref" !in s }

  /** The other branches reject what the first branch is sampled to. */
  ghost predicate FirstIsOnly(branches: seq<Node>, root: Fields, includeOptional: bool, below: nat)
    requires branches != []
    decreases below, 2
  {
    branches[0].Record? && Sample(branches[0].fields, root, includeOptional, below).Returned? ==>
      forall j | 1 <= j < |branches| ::
        NodeRejects(branches[j], root, Sample(branches[0].fields, root, includeOptional, below).value, below)
  }

  ghost predicate SupportedObject(s: Fields, root: Fields, includeOptional: bool, below: nat)
    decreases below, 2
  {
    && Required(s) <= Properties(s).Keys
    && forall key | key in SampledKeys(s, includeOptional) :: SupportedNode(Properties(s)[key], root, includeOptional, below)
  }

  predicate WholeNumber(s: Fields, key: string) {
    key in s ==> s[key].Number? && s[key].r.Floor as real == s[key].r
  }

  /** Tuples and arrays of at least so many items. */
  ghost predicate SupportedArray(s: Fields, root: Fields, includeOptional: bool, below: nat)
    decreases below, 2
  {
    && ("items" in s ==> s["items"].List? || s["items"].Record?)
    && ("prefixItems" in s ==> s["prefixItems"].List?)
    && WholeNumber(s, "minItems") && ("minItems" in s ==> s["minItems"].r <= |ItemSchemas(s)| as real)
    && (forall i | 0 <= i < |ItemSchemas(s)| :: SupportedNode(ItemSchemas(s)[i], root, includeOptional, below))
  }

  // ----- soundness ---------------------------------------------------------

  lemma {:induction false} SamplerIsSound(s: Fields, root: Fields, includeOptional: bool, depth: nat)
    requires Supported(s, root, includeOptional, depth)
    ensures Sample(s, root, includeOptional, depth).Returned?
    ensures Accepts(s, root, Sample(s, root, includeOptional, depth).value, depth)
    decreases depth, 1
  {
    if "const" in s {
    } else if "anyOf" in s || "oneOf" in s {
      UnionIsSound(s, root, includeOptional, depth);
    } else if "$ref" in s {
      SamplerIsSound(Referenced(s, root).value.fields, root, includeOptional, depth - 1);
      BareAcceptsAll(s, Sample(s, root, includeOptional, depth).value);
    } else if "enum" in s {
    } else if TypeOf(s) == Some(Text("object")) {
      ObjectIsSound(s, root, includeOptional, depth);
    } else if TypeOf(s) == Some(Text("array")) {
      ArrayIsSound(s, root, includeOptional, depth);
    } else {
      ScalarIsSound(s, root, includeOptional, depth);
    }
  }

  lemma BareAcceptsAll(s: Fields, x: Node)
    requires Bare(s) && "const" !in s
    ensures ValueAccepts(s, x) && Properties(s) == map[] && forall i: nat :: ItemSchemaAt(s, i).None?
  {
  }

  lemma {:induction false} UnionIsSound(s: Fields, root: Fields, includeOptional: bool, depth: nat)
    requires Supported(s, root, includeOptional, depth) && "const" !in s && ("anyOf" in s || "oneOf" in s)
    ensures Sample(s, root, includeOptional, depth).Returned?
    ensures Accepts(s, root, Sample(s, root, includeOptional, depth).value, depth)
    decreases depth, 0
  {
    var first := Union(s)[0];
    SamplerIsSound(first.fields, root, includeOptional, depth - 1);
    var x := Sample(s, root, includeOptional, depth).value;
    BareAcceptsAll(s, x);
    assert NodeAccepts(first, root, x, depth - 1);
    if "anyOf" !in s {
      assert s["oneOf"].items[0] == first && OthersReject(s["oneOf"].items, 0, root, x, depth - 1);
    }
  }

  lemma TypeOfAccepts(s: Fields, name: string, x: Node)
    requires TypeOf(s) == Some(Text(name)) && HasType(name, x)
    ensures "type" in s && TypeAccepts(s["type"], x)
  {
    if s["type"].List? {
      assert s["type"].items[0] == Text(name);
    }
  }

  lemma {:induction false} ObjectIsSound(s: Fields, root: Fields, includeOptional: bool, depth: nat)
    requires depth > 0 && DecidedByType(s) && TypeOf(s) == Some(Text("object"))
    requires SupportedObject(s, root, includeOptional, depth - 1)
    ensures Sample(s, root, includeOptional, depth).Returned?
    ensures Accepts(s, root, Sample(s, root, includeOptional, depth).value, depth)
    decreases depth, 0
  {
    var properties, keys := Properties(s), SampledKeys(s, includeOptional);
    forall key | key in keys
      ensures SampleProperty(Get(properties, key), root, includeOptional, depth - 1).Returned?
      ensures NodeAccepts(properties[key], root,
                          SampleProperty(Get(properties, key), root, includeOptional, depth - 1).value, depth - 1)
    {
      SamplerIsSound(properties[key].fields, root, includeOptional, depth - 1);
    }
    var x := SampleObject(s, root, includeOptional, depth - 1).value;
    assert x.fields.Keys == keys;
    TypeOfAccepts(s, "object", x);
  }

  lemma {:induction false} ArrayIsSound(s: Fields, root: Fields, includeOptional: bool, depth: nat)
    requires depth > 0 && DecidedByType(s) && TypeOf(s) == Some(Text("array"))
    requires SupportedArray(s, root, includeOptional, depth - 1)
    ensures Sample(s, root, includeOptional, depth).Returned?
    ensures Accepts(s, root, Sample(s, root, includeOptional, depth).value, depth)
    decreases depth, 0
  {
    var schemas := ItemSchemas(s);
    forall i | 0 <= i < |schemas|
      ensures SampleItem(schemas[i], root, includeOptional, depth - 1).Returned?
      ensures NodeAccepts(schemas[i], root, SampleItem(schemas[i], root, includeOptional, depth - 1).value, depth - 1)
    {
      SamplerIsSound(schemas[i].fields, root, includeOptional, depth - 1);
    }
    assert SampleArray(s, root, includeOptional, depth - 1) == SampleItems(schemas, root, includeOptional, depth - 1);
    var x := SampleItems(schemas, root, includeOptional, depth - 1).value;
    assert |x.items| == |schemas|;
    TypeOfAccepts(s, "array", x);
    forall i | 0 <= i < |x.items| && ItemSchemaAt(s, i).Some?
      ensures NodeAccepts(ItemSchemaAt(s, i).value, root, x.items[i], depth - 1)
    {
      assert ItemSchemaAt(s, i).value == schemas[i];
    }
  }

  lemma ScalarIsSound(s: Fields, root: Fields, includeOptional: bool, depth: nat)
    requires Supported(s, root, includeOptional, depth) && DecidedByType(s)
    requires TypeOf(s) != Some(Text("object")) && TypeOf(s) != Some(Text("array"))
    ensures Sample(s, root, includeOptional, depth).Returned?
    ensures Accepts(s, root, Sample(s, root, includeOptional, depth).value, depth)
  {
    var x := Sample(s, root, includeOptional, depth).value;
    TypeOfAccepts(s, TypeOf(s).value.s, x);
  }
}
