/** Class constraints (`lib/src/class_constraints.rs`): the JSON Schema keywords a constraint may use,
    parsing them from JSON and printing them back. */
module Constraints {
  import opened Basics
  import opened JsonValues

  const MAX_DEPTH: nat := 16

  /** Every keyword a constraint may use. */
  datatype Keyword =
    | Enum | Const | Type | PropertiesK | Required | AdditionalK | ItemsK | AnyOf
    | Minimum | Maximum | ExclusiveMinimum | ExclusiveMaximum
    | MinLength | MaxLength | MinItems | MaxItems | Pattern | Class

  function Name(k: Keyword): string {
    match k
    case Enum => "enum"
    case Const => "const"
    case Type => "type"
    case PropertiesK => "properties"
    case Required => "required"
    case AdditionalK => "additionalProperties"
    case ItemsK => "items"
    case AnyOf => "anyOf"
    case Minimum => "minimum"
    case Maximum => "maximum"
    case ExclusiveMinimum => "exclusiveMinimum"
    case ExclusiveMaximum => "exclusiveMaximum"
    case MinLength => "minLength"
    case MaxLength => "maxLength"
    case MinItems => "minItems"
    case MaxItems => "maxItems"
    case Pattern => "pattern"
    case Class => "class"
  }

  function KeywordOf(s: string): Option<Keyword> {
    if s == "enum" then Some(Enum)
    else if s == "const" then Some(Const)
    else if s == "type" then Some(Type)
    else if s == "properties" then Some(PropertiesK)
    else if s == "required" then Some(Required)
    else if s == "additionalProperties" then Some(AdditionalK)
    else if s == "items" then Some(ItemsK)
    else if s == "anyOf" then Some(AnyOf)
    else if s == "minimum" then Some(Minimum)
    else if s == "maximum" then Some(Maximum)
    else if s == "exclusiveMinimum" then Some(ExclusiveMinimum)
    else if s == "exclusiveMaximum" then Some(ExclusiveMaximum)
    else if s == "minLength" then Some(MinLength)
    else if s == "maxLength" then Some(MaxLength)
    else if s == "minItems" then Some(MinItems)
    else if s == "maxItems" then Some(MaxItems)
    else if s == "pattern" then Some(Pattern)
    else if s == "class" then Some(Class)
    else None
  }

  lemma KeywordName(s: string)
    requires KeywordOf(s).Some?
    ensures Name(KeywordOf(s).value) == s
  {
  }

  lemma NameKeyword(k: Keyword)
    ensures KeywordOf(Name(k)) == Some(k)
  {
  }

  datatype JsonType = StringT | NumberT | IntegerT | BooleanT | NullT | ObjectT | ArrayT

  function TypeName(t: JsonType): (s: string)
    ensures TypeOf(s) == Some(t)
  {
    match t
    case StringT => "string"
    case NumberT => "number"
    case IntegerT => "integer"
    case BooleanT => "boolean"
    case NullT => "null"
    case ObjectT => "object"
    case ArrayT => "array"
  }

  function TypeOf(s: string): Option<JsonType> {
    if s == "string" then Some(StringT)
    else if s == "number" then Some(NumberT)
    else if s == "integer" then Some(IntegerT)
    else if s == "boolean" then Some(BooleanT)
    else if s == "null" then Some(NullT)
    else if s == "object" then Some(ObjectT)
    else if s == "array" then Some(ArrayT)
    else None
  }

  /** The regular-expression engine: which sources compile, and what they match. */
  datatype Regex = Regex(compiles: string -> bool, matches: (string, string) -> bool)

  datatype Properties = NoProperties | Properties(of: map<string, Constraint>)

  datatype Additional = NoAdditional | Allowed(allowed: bool) | Schema(schema: Constraint)

  datatype Items = NoItems | Items(schema: Constraint)

  datatype Branches = NoBranches | Branches(of: seq<Constraint>)

  /** The constraints on one property, or a nested schema. */
  datatype Constraint = Constraint(
    enumValues: Option<seq<Json>>,
    constValue: Option<Json>,
    types: Option<seq<JsonType>>,
    properties: Properties,
    required: Option<seq<string>>,
    additional: Additional,
    items: Items,
    anyOf: Branches,
    minimum: Option<real>,
    maximum: Option<real>,
    exclusiveMinimum: Option<real>,
    exclusiveMaximum: Option<real>,
    minLength: Option<nat>,
    maxLength: Option<nat>,
    minItems: Option<nat>,
    maxItems: Option<nat>,
    pattern: Option<string>,
    class_: Option<string>)

  const EMPTY := Constraint(None, None, None, NoProperties, None, NoAdditional, NoItems, NoBranches,
                            None, None, None, None, None, None, None, None, None, None)

  // ---- Parsing ------------------------------------------------------------------------------

  const U64: int := 0x1_0000_0000_0000_0000

  predicate IsCount(v: Json) {
    v.Num? && v.n.Int? && 0 <= v.n.i < U64
  }

  /** `type`: one name or a non-empty array of names. */
  predicate IsTypes(v: Json) {
    if v.Arr? then v.items != [] && forall i | 0 <= i < |v.items| :: v.items[i].Str? && TypeOf(v.items[i].s).Some?
    else v.Str? && TypeOf(v.s).Some?
  }

  function TypesIn(v: Json): seq<JsonType>
    requires IsTypes(v)
  {
    if v.Arr? then seq(|v.items|, i requires 0 <= i < |v.items| => TypeOf(v.items[i].s).value) else [TypeOf(v.s).value]
  }

  /** The names without repeats, each at its first place. */
  function Distinct(types: seq<JsonType>): seq<JsonType> {
    if types == [] then []
    else
      var front := Distinct(types[..|types| - 1]);
      if types[|types| - 1] in front then front else front + [types[|types| - 1]]
  }

  /** What each keyword demands of its argument. */
  predicate ArgumentOk(rx: Regex, k: Keyword, v: Json, depth: nat)
    decreases v, 1
  {
    match k
    case Enum => v.Arr?
    case Const => true
    case Type => IsTypes(v)
    case PropertiesK => v.Obj? && forall name | name in v.fields :: Accepts(rx, v.fields[name], depth + 1)
    case Required => v.Arr? && forall i | 0 <= i < |v.items| :: v.items[i].Str?
    case AdditionalK => v.Bool? || (v.Obj? && Accepts(rx, v, depth + 1))
    case ItemsK => Accepts(rx, v, depth + 1)
    case AnyOf => v.Arr? && v.items != [] && forall i | 0 <= i < |v.items| :: Accepts(rx, v.items[i], depth + 1)
    case Minimum => v.Num?
    case Maximum => v.Num?
    case ExclusiveMinimum => v.Num?
    case ExclusiveMaximum => v.Num?
    case MinLength => IsCount(v)
    case MaxLength => IsCount(v)
    case MinItems => IsCount(v)
    case MaxItems => IsCount(v)
    case Pattern => v.Str? && rx.compiles(v.s)
    case Class => depth == 0 && v.Str?
  }

  /** The JSON `parse_at` accepts at a nesting depth. */
  predicate Accepts(rx: Regex, json: Json, depth: nat)
    decreases json, 0
  {
    && depth <= MAX_DEPTH
    && json.Obj?
    && forall s | s in json.fields :: KeywordOf(s).Some? && ArgumentOk(rx, KeywordOf(s).value, json.fields[s], depth)
  }

  type Arguments = map<Keyword, Json>

  predicate ArgumentsOk(rx: Regex, args: Arguments, depth: nat) {
    forall k | k in args :: ArgumentOk(rx, k, args[k], depth)
  }

  /** The arguments an object gives, by keyword. */
  function ArgumentsOf(o: map<string, Json>): Arguments {
    map k: Keyword | Name(k) in o :: o[Name(k)]
  }

  lemma AcceptedArguments(rx: Regex, json: Json, depth: nat)
    requires Accepts(rx, json, depth)
    ensures ArgumentsOk(rx, ArgumentsOf(json.fields), depth)
  {
    hide Name, KeywordOf;
    forall k | k in ArgumentsOf(json.fields) ensures ArgumentOk(rx, k, ArgumentsOf(json.fields)[k], depth) {
      NameKeyword(k);
    }
  }

  function Strings(items: seq<Json>): seq<string>
    requires forall i | 0 <= i < |items| :: items[i].Str?
  {
    seq(|items|, i requires 0 <= i < |items| => items[i].s)
  }

  function EnumAt(rx: Regex, args: Arguments, depth: nat): Option<seq<Json>>
    requires ArgumentsOk(rx, args, depth)
  {
    if Enum in args then Some(args[Enum].items) else None
  }

  function TypesAt(rx: Regex, args: Arguments, depth: nat): Option<seq<JsonType>>
    requires ArgumentsOk(rx, args, depth)
  {
    if Type in args then Some(Distinct(TypesIn(args[Type]))) else None
  }

  function RequiredAt(rx: Regex, args: Arguments, depth: nat): Option<seq<string>>
    requires ArgumentsOk(rx, args, depth)
  {
    if Required in args then Some(Strings(args[Required].items)) else None
  }

  function PatternAt(rx: Regex, args: Arguments, depth: nat): Option<string>
    requires ArgumentsOk(rx, args, depth)
  {
    if Pattern in args then Some(args[Pattern].s) else None
  }

  function ClassAt(rx: Regex, args: Arguments, depth: nat): Option<string>
    requires ArgumentsOk(rx, args, depth)
  {
    if Class in args then Some(CanonicalScheme(args[Class].s)) else None
  }

  function ParsedMap(rx: Regex, v: Json, depth: nat): map<string, Constraint>
    requires v.Obj? && forall name | name in v.fields :: Accepts(rx, v.fields[name], depth + 1)
    decreases v, 3
  {
    map name | name in v.fields :: Parsed(rx, v.fields[name], depth + 1)
  }

  function ParsedList(rx: Regex, v: Json, depth: nat): seq<Constraint>
    requires v.Arr? && forall i | 0 <= i < |v.items| :: Accepts(rx, v.items[i], depth + 1)
    decreases v, 3
  {
    seq(|v.items|, i requires 0 <= i < |v.items| => Parsed(rx, v.items[i], depth + 1))
  }

  function PropertiesAt(rx: Regex, args: Arguments, depth: nat, ghost json: Json): Properties
    requires ArgumentsOk(rx, args, depth) && forall k | k in args :: args[k] < json
    decreases json, 0
  {
    if PropertiesK in args then Properties(ParsedMap(rx, args[PropertiesK], depth)) else NoProperties
  }

  function AdditionalAt(rx: Regex, args: Arguments, depth: nat, ghost json: Json): Additional
    requires ArgumentsOk(rx, args, depth) && forall k | k in args :: args[k] < json
    decreases json, 0
  {
    if AdditionalK !in args then NoAdditional
    else if args[AdditionalK].Bool? then Allowed(args[AdditionalK].b)
    else Schema(Parsed(rx, args[AdditionalK], depth + 1))
  }

  function ItemsAt(rx: Regex, args: Arguments, depth: nat, ghost json: Json): Items
    requires ArgumentsOk(rx, args, depth) && forall k | k in args :: args[k] < json
    decreases json, 0
  {
    if ItemsK in args then Items(Parsed(rx, args[ItemsK], depth + 1)) else NoItems
  }

  function BranchesAt(rx: Regex, args: Arguments, depth: nat, ghost json: Json): Branches
    requires ArgumentsOk(rx, args, depth) && forall k | k in args :: args[k] < json
    decreases json, 0
  {
    if AnyOf in args then Branches(ParsedList(rx, args[AnyOf], depth)) else NoBranches
  }

  function NumberAt(rx: Regex, args: Arguments, depth: nat, k: Keyword): Option<real>
    requires ArgumentsOk(rx, args, depth)
    requires k in {Minimum, Maximum, ExclusiveMinimum, ExclusiveMaximum}
  {
    if k in args then Some(args[k].n.Value()) else None
  }

  function CountAt(rx: Regex, args: Arguments, depth: nat, k: Keyword): Option<nat>
    requires ArgumentsOk(rx, args, depth)
    requires k in {MinLength, MaxLength, MinItems, MaxItems}
  {
    if k in args then Some(args[k].n.i) else None
  }

  /** The constraint that accepted arguments denote: each keyword fills its own field. */
  function ParsedArguments(rx: Regex, args: Arguments, depth: nat, ghost json: Json): Constraint
    requires ArgumentsOk(rx, args, depth) && forall k | k in args :: args[k] < json
    decreases json, 1
  {
    Constraint(
      EnumAt(rx, args, depth),
      if Const in args then Some(args[Const]) else None,
      TypesAt(rx, args, depth),
      PropertiesAt(rx, args, depth, json),
      RequiredAt(rx, args, depth),
      AdditionalAt(rx, args, depth, json),
      ItemsAt(rx, args, depth, json),
      BranchesAt(rx, args, depth, json),
      NumberAt(rx, args, depth, Minimum),
      NumberAt(rx, args, depth, Maximum),
      NumberAt(rx, args, depth, ExclusiveMinimum),
      NumberAt(rx, args, depth, ExclusiveMaximum),
      CountAt(rx, args, depth, MinLength),
      CountAt(rx, args, depth, MaxLength),
      CountAt(rx, args, depth, MinItems),
      CountAt(rx, args, depth, MaxItems),
      PatternAt(rx, args, depth),
      ClassAt(rx, args, depth))
  }

  /** The constraint accepted JSON denotes. */
  function Parsed(rx: Regex, json: Json, depth: nat): Constraint
    requires Accepts(rx, json, depth)
    decreases json, 2
  {
    AcceptedArguments(rx, json, depth);
    ParsedArguments(rx, ArgumentsOf(json.fields), depth, json)
  }

  // ---- Printing -----------------------------------------------------------------------------

  const INTEGRAL_LIMIT: real := 9000000000000000.0

  /** Whole numbers below the limit are printed as integers. */
  function NumberJson(v: real): Json {
    if v.Floor as real == v && -INTEGRAL_LIMIT < v < INTEGRAL_LIMIT then Num(Int(v.Floor)) else Num(Float(v))
  }

  function StringsJson(strings: seq<string>): seq<Json> {
    seq(|strings|, i requires 0 <= i < |strings| => Str(strings[i]))
  }

  function TypeNames(types: seq<JsonType>): seq<string> {
    seq(|types|, i requires 0 <= i < |types| => TypeName(types[i]))
  }

  function TypesJson(types: seq<JsonType>): Json {
    if |types| == 1 then Str(TypeName(types[0])) else Arr(StringsJson(TypeNames(types)))
  }

  function NumberArgument(v: Option<real>): Option<Json> {
    if v.Some? then Some(NumberJson(v.value)) else None
  }

  function CountArgument(v: Option<nat>): Option<Json> {
    if v.Some? then Some(Num(Int(v.value))) else None
  }

  function TextArgument(v: Option<string>): Option<Json> {
    if v.Some? then Some(Str(v.value)) else None
  }

  /** What one keyword is printed as, when its field is set. */
  function FieldJson(c: Constraint, k: Keyword): Option<Json>
    decreases c, 0
  {
    match k
    case Enum => if c.enumValues.Some? then Some(Arr(c.enumValues.value)) else None
    case Const => c.constValue
    case Type => if c.types.Some? then Some(TypesJson(c.types.value)) else None
    case PropertiesK =>
      if c.properties.Properties? then Some(Obj(map name | name in c.properties.of :: ToJson(c.properties.of[name]))) else None
    case Required => if c.required.Some? then Some(Arr(StringsJson(c.required.value))) else None
    case AdditionalK =>
      if c.additional.Allowed? then Some(Bool(c.additional.allowed))
      else if c.additional.Schema? then Some(ToJson(c.additional.schema))
      else None
    case ItemsK => if c.items.Items? then Some(ToJson(c.items.schema)) else None
    case AnyOf =>
      if c.anyOf.Branches? then
        Some(Arr(seq(|c.anyOf.of|, i requires 0 <= i < |c.anyOf.of| => ToJson(c.anyOf.of[i]))))
      else None
    case Minimum => NumberArgument(c.minimum)
    case Maximum => NumberArgument(c.maximum)
    case ExclusiveMinimum => NumberArgument(c.exclusiveMinimum)
    case ExclusiveMaximum => NumberArgument(c.exclusiveMaximum)
    case MinLength => CountArgument(c.minLength)
    case MaxLength => CountArgument(c.maxLength)
    case MinItems => CountArgument(c.minItems)
    case MaxItems => CountArgument(c.maxItems)
    case Pattern => TextArgument(c.pattern)
    case Class => TextArgument(c.class_)
  }

  const NAMES: set<string> := set k: Keyword | true :: Name(k)

  /** `to_json`. */
  function ToJson(c: Constraint): Json
    decreases c, 1
  {
    Obj(map s | s in NAMES && KeywordOf(s).Some? && FieldJson(c, KeywordOf(s).value).Some? ::
          FieldJson(c, KeywordOf(s).value).value)
  }

  // ---- The round trip -----------------------------------------------------------------------

  predicate ValuesWellFormed(rx: Regex, c: Constraint, depth: nat) {
    && (c.types.Some? ==> c.types.value != [] && NoRepeats(c.types.value))
    && (c.minLength.Some? ==> c.minLength.value < U64)
    && (c.maxLength.Some? ==> c.maxLength.value < U64)
    && (c.minItems.Some? ==> c.minItems.value < U64)
    && (c.maxItems.Some? ==> c.maxItems.value < U64)
    && (c.pattern.Some? ==> rx.compiles(c.pattern.value))
    && (c.class_.Some? ==> depth == 0 && CanonicalScheme(c.class_.value) == c.class_.value)
  }

  /** The constraints parsing can produce at a nesting depth. */
  predicate WellFormed(rx: Regex, c: Constraint, depth: nat) {
    && depth <= MAX_DEPTH
    && ValuesWellFormed(rx, c, depth)
    && (c.properties.Properties? ==> forall name | name in c.properties.of :: WellFormed(rx, c.properties.of[name], depth + 1))
    && (c.additional.Schema? ==> WellFormed(rx, c.additional.schema, depth + 1))
    && (c.items.Items? ==> WellFormed(rx, c.items.schema, depth + 1))
    && (c.anyOf.Branches? ==>
          c.anyOf.of != [] && forall i | 0 <= i < |c.anyOf.of| :: WellFormed(rx, c.anyOf.of[i], depth + 1))
  }

  lemma {:induction false} DistinctHasNoRepeats(types: seq<JsonType>)
    ensures NoRepeats(Distinct(types)) && (types != [] ==> Distinct(types) != [])
    decreases |types|
  {
    if types != [] { DistinctHasNoRepeats(types[..|types| - 1]); }
  }

  lemma {:induction false} DistinctKeeps(types: seq<JsonType>)
    requires NoRepeats(types)
    ensures Distinct(types) == types
    decreases |types|
  {
    if types != [] {
      var n := |types| - 1;
      DistinctKeeps(types[..n]);
      assert types == types[..n] + [types[n]];
    }
  }

  lemma TypesRoundTrip(types: seq<JsonType>)
    requires types != [] && NoRepeats(types)
    ensures IsTypes(TypesJson(types)) && Distinct(TypesIn(TypesJson(types))) == types
  {
    hide TypeName, TypeOf, NoRepeats, Distinct, TypesIn, IsTypes, TypesJson;
    DistinctKeeps(types);
    TypesBack(types);
  }

  lemma TypesBack(types: seq<JsonType>)
    requires types != []
    ensures IsTypes(TypesJson(types)) && TypesIn(TypesJson(types)) == types
  {
    hide TypeName, TypeOf;
    forall i | 0 <= i < |types| ensures TypeOf(TypeName(types[i])) == Some(types[i]) {}
    var json := TypesJson(types);
    if |types| > 1 {
      assert json.Arr? && |json.items| == |types|;
      assert forall i | 0 <= i < |types| :: json.items[i] == Str(TypeName(types[i]));
      assert forall i | 0 <= i < |types| :: TypesIn(json)[i] == types[i];
    }
  }

  lemma ValueFieldsWellFormed(rx: Regex, args: Arguments, depth: nat)
    requires ArgumentsOk(rx, args, depth)
    ensures TypesAt(rx, args, depth).Some? ==>
              TypesAt(rx, args, depth).value != [] && NoRepeats(TypesAt(rx, args, depth).value)
    ensures PatternAt(rx, args, depth).Some? ==> rx.compiles(PatternAt(rx, args, depth).value)
    ensures ClassAt(rx, args, depth).Some? ==>
              depth == 0 && CanonicalScheme(ClassAt(rx, args, depth).value) == ClassAt(rx, args, depth).value
  {
    hide Accepts;
    if Type in args { DistinctHasNoRepeats(TypesIn(args[Type])); }
    if Class in args { CanonicalSchemeIdempotent(args[Class].s); }
  }

  lemma CountFieldsWellFormed(rx: Regex, args: Arguments, depth: nat, k: Keyword)
    requires ArgumentsOk(rx, args, depth) && k in {MinLength, MaxLength, MinItems, MaxItems}
    ensures CountAt(rx, args, depth, k).Some? ==> CountAt(rx, args, depth, k).value < U64
  {
    hide Accepts;
  }

  lemma {:induction false} PropertiesWellFormed(rx: Regex, args: Arguments, depth: nat, json: Json)
    requires ArgumentsOk(rx, args, depth) && forall k | k in args :: args[k] < json
    ensures var r := PropertiesAt(rx, args, depth, json);
            r.Properties? ==> forall name | name in r.of :: WellFormed(rx, r.of[name], depth + 1)
    decreases json, 0
  {
    hide ParsedArguments, WellFormed;
    var r := PropertiesAt(rx, args, depth, json);
    if PropertiesK in args {
      assert r.of == ParsedMap(rx, args[PropertiesK], depth);
      forall name | name in r.of ensures WellFormed(rx, r.of[name], depth + 1) {
        ParsedIsWellFormed(rx, args[PropertiesK].fields[name], depth + 1);
      }
    }
  }

  lemma {:induction false} BranchesWellFormed(rx: Regex, args: Arguments, depth: nat, json: Json)
    requires ArgumentsOk(rx, args, depth) && forall k | k in args :: args[k] < json
    ensures var r := BranchesAt(rx, args, depth, json);
            r.Branches? ==> r.of != [] && forall i | 0 <= i < |r.of| :: WellFormed(rx, r.of[i], depth + 1)
    decreases json, 0
  {
    hide ParsedArguments, WellFormed;
    var r := BranchesAt(rx, args, depth, json);
    if AnyOf in args {
      assert r.of == ParsedList(rx, args[AnyOf], depth);
      forall i | 0 <= i < |r.of| ensures WellFormed(rx, r.of[i], depth + 1) {
        ParsedIsWellFormed(rx, args[AnyOf].items[i], depth + 1);
      }
    }
  }

  lemma {:induction false} SchemasWellFormed(rx: Regex, args: Arguments, depth: nat, json: Json)
    requires ArgumentsOk(rx, args, depth) && forall k | k in args :: args[k] < json
    ensures var r := AdditionalAt(rx, args, depth, json); r.Schema? ==> WellFormed(rx, r.schema, depth + 1)
    ensures var r := ItemsAt(rx, args, depth, json); r.Items? ==> WellFormed(rx, r.schema, depth + 1)
    decreases json, 0
  {
    hide ParsedArguments, WellFormed;
    if AdditionalK in args && !args[AdditionalK].Bool? { ParsedIsWellFormed(rx, args[AdditionalK], depth + 1); }
    if ItemsK in args { ParsedIsWellFormed(rx, args[ItemsK], depth + 1); }
  }

  /** Parsing yields a well-formed constraint: in particular nothing nested deeper than the limit. */
  lemma {:induction false} ParsedIsWellFormed(rx: Regex, json: Json, depth: nat)
    requires Accepts(rx, json, depth)
    ensures WellFormed(rx, Parsed(rx, json, depth), depth)
    decreases json, 1
  {
    AcceptedArguments(rx, json, depth);
    var args := ArgumentsOf(json.fields);
    hide Name, KeywordOf, ArgumentsOf, ArgumentsOk;
    hide NumberAt, CountAt, EnumAt, TypesAt, RequiredAt, PatternAt, ClassAt, PropertiesAt, AdditionalAt, ItemsAt, BranchesAt;
    ValueFieldsWellFormed(rx, args, depth);
    CountFieldsWellFormed(rx, args, depth, MinLength);
    CountFieldsWellFormed(rx, args, depth, MaxLength);
    CountFieldsWellFormed(rx, args, depth, MinItems);
    CountFieldsWellFormed(rx, args, depth, MaxItems);
    PropertiesWellFormed(rx, args, depth, json);
    BranchesWellFormed(rx, args, depth, json);
    SchemasWellFormed(rx, args, depth, json);
    assert Parsed(rx, json, depth) == ParsedArguments(rx, args, depth, json);
  }

  lemma PrintedArguments(c: Constraint)
    ensures forall s :: s in ToJson(c).fields ==> KeywordOf(s).Some? && FieldJson(c, KeywordOf(s).value) == Some(ToJson(c).fields[s])
    ensures forall k: Keyword :: k in ArgumentsOf(ToJson(c).fields) <==> FieldJson(c, k).Some?
    ensures forall k :: k in ArgumentsOf(ToJson(c).fields) ==> Some(ArgumentsOf(ToJson(c).fields)[k]) == FieldJson(c, k)
  {
    hide Name, KeywordOf;
    forall k: Keyword
      ensures Name(k) in ToJson(c).fields <==> FieldJson(c, k).Some?
      ensures Name(k) in ToJson(c).fields ==> Some(ToJson(c).fields[Name(k)]) == FieldJson(c, k)
    {
      NameKeyword(k);
    }
  }

  lemma {:induction false} PrintedIsAccepted(rx: Regex, c: Constraint, depth: nat)
    requires WellFormed(rx, c, depth)
    ensures Accepts(rx, ToJson(c), depth)
    decreases c, 1
  {
    hide Name, KeywordOf, FieldJson, ToJson, ArgumentOk, WellFormed;
    PrintedArguments(c);
    assert ToJson(c).Obj? by { PrintsObject(c); }
    assert depth <= MAX_DEPTH by { DepthInLimit(rx, c, depth); }
    forall s | s in ToJson(c).fields ensures ArgumentOk(rx, KeywordOf(s).value, ToJson(c).fields[s], depth) {
      PrintedFieldOk(rx, c, depth, KeywordOf(s).value);
    }
  }

  lemma PrintsObject(c: Constraint)
    ensures ToJson(c).Obj?
  {
    hide Name, FieldJson;
  }

  lemma DepthInLimit(rx: Regex, c: Constraint, depth: nat)
    requires WellFormed(rx, c, depth)
    ensures depth <= MAX_DEPTH
  {
  }

  lemma {:induction false} PrintedFieldOk(rx: Regex, c: Constraint, depth: nat, k: Keyword)
    requires WellFormed(rx, c, depth) && FieldJson(c, k).Some?
    ensures ArgumentOk(rx, k, FieldJson(c, k).value, depth)
    decreases c, 0
  {
    hide Accepts, ToJson;
    match k
    case Type => TypesRoundTrip(c.types.value);
    case PropertiesK =>
      forall name | name in c.properties.of ensures Accepts(rx, ToJson(c.properties.of[name]), depth + 1) {
        PrintedIsAccepted(rx, c.properties.of[name], depth + 1);
      }
    case AdditionalK =>
      if c.additional.Schema? {
        PrintedIsAccepted(rx, c.additional.schema, depth + 1);
        PrintsObject(c.additional.schema);
      }
    case ItemsK => PrintedIsAccepted(rx, c.items.schema, depth + 1);
    case AnyOf =>
      forall i | 0 <= i < |c.anyOf.of| ensures Accepts(rx, ToJson(c.anyOf.of[i]), depth + 1) {
        PrintedIsAccepted(rx, c.anyOf.of[i], depth + 1);
      }
    case _ =>
  }

  lemma {:induction false} PropertiesRoundTrip(rx: Regex, c: Constraint, depth: nat, args: Arguments, json: Json)
    requires WellFormed(rx, c, depth) && ArgumentsOk(rx, args, depth) && forall k | k in args :: args[k] < json
    requires PropertiesK in args <==> c.properties.Properties?
    requires PropertiesK in args ==> Some(args[PropertiesK]) == FieldJson(c, PropertiesK)
    ensures PropertiesAt(rx, args, depth, json) == c.properties
    decreases c, 0
  {
    hide ToJson, Accepts, ParsedArguments;
    if c.properties.Properties? {
      forall name | name in c.properties.of
        ensures Accepts(rx, ToJson(c.properties.of[name]), depth + 1)
        ensures Parsed(rx, ToJson(c.properties.of[name]), depth + 1) == c.properties.of[name]
      {
        PrintParse(rx, c.properties.of[name], depth + 1);
      }
    }
  }

  lemma {:induction false} BranchesRoundTrip(rx: Regex, c: Constraint, depth: nat, args: Arguments, json: Json)
    requires WellFormed(rx, c, depth) && ArgumentsOk(rx, args, depth) && forall k | k in args :: args[k] < json
    requires AnyOf in args <==> c.anyOf.Branches?
    requires AnyOf in args ==> Some(args[AnyOf]) == FieldJson(c, AnyOf)
    ensures BranchesAt(rx, args, depth, json) == c.anyOf
    decreases c, 0
  {
    hide ToJson, Accepts, ParsedArguments;
    if c.anyOf.Branches? {
      forall i | 0 <= i < |c.anyOf.of|
        ensures Accepts(rx, ToJson(c.anyOf.of[i]), depth + 1)
        ensures Parsed(rx, ToJson(c.anyOf.of[i]), depth + 1) == c.anyOf.of[i]
      {
        PrintParse(rx, c.anyOf.of[i], depth + 1);
      }
    }
  }

  lemma {:induction false} SchemasRoundTrip(rx: Regex, c: Constraint, depth: nat, args: Arguments, json: Json)
    requires WellFormed(rx, c, depth) && ArgumentsOk(rx, args, depth) && forall k | k in args :: args[k] < json
    requires forall k :: k in {AdditionalK, ItemsK} ==> (k in args <==> FieldJson(c, k).Some?)
    requires forall k :: k in {AdditionalK, ItemsK} && k in args ==> Some(args[k]) == FieldJson(c, k)
    ensures AdditionalAt(rx, args, depth, json) == c.additional && ItemsAt(rx, args, depth, json) == c.items
    decreases c, 0
  {
    hide ToJson, Accepts, ParsedArguments;
    assert AdditionalK in args <==> FieldJson(c, AdditionalK).Some?;
    assert ItemsK in args <==> FieldJson(c, ItemsK).Some?;
    if c.additional.Schema? {
      PrintsObject(c.additional.schema);
      PrintParse(rx, c.additional.schema, depth + 1);
    }
    if c.items.Items? { PrintParse(rx, c.items.schema, depth + 1); }
  }

  lemma ValuesRoundTrip(rx: Regex, c: Constraint, depth: nat, args: Arguments)
    requires WellFormed(rx, c, depth) && ArgumentsOk(rx, args, depth)
    requires forall k: Keyword :: k in args <==> FieldJson(c, k).Some?
    requires forall k :: k in args ==> Some(args[k]) == FieldJson(c, k)
    ensures EnumAt(rx, args, depth) == c.enumValues && (if Const in args then Some(args[Const]) else None) == c.constValue
    ensures TypesAt(rx, args, depth) == c.types && RequiredAt(rx, args, depth) == c.required
    ensures PatternAt(rx, args, depth) == c.pattern && ClassAt(rx, args, depth) == c.class_
  {
    hide ToJson, Accepts, WellFormed;
    if Type in args {
      assert c.types.value != [] && NoRepeats(c.types.value) by { TypesNonEmpty(rx, c, depth); }
      TypesRoundTrip(c.types.value);
    }
    if Class in args { TypesNonEmpty(rx, c, depth); }
    assert Enum in args <==> c.enumValues.Some?;
    assert Required in args <==> c.required.Some?;
    if Required in args { assert Strings(args[Required].items) == c.required.value; }
  }

  lemma TypesNonEmpty(rx: Regex, c: Constraint, depth: nat)
    requires WellFormed(rx, c, depth)
    ensures c.types.Some? ==> c.types.value != [] && NoRepeats(c.types.value)
    ensures c.class_.Some? ==> CanonicalScheme(c.class_.value) == c.class_.value
  {
  }

  lemma NumberRoundTrip(rx: Regex, c: Constraint, depth: nat, args: Arguments)
    requires ArgumentsOk(rx, args, depth)
    requires forall k: Keyword :: k in args <==> FieldJson(c, k).Some?
    requires forall k :: k in args ==> Some(args[k]) == FieldJson(c, k)
    ensures NumberAt(rx, args, depth, Minimum) == c.minimum && NumberAt(rx, args, depth, Maximum) == c.maximum
    ensures NumberAt(rx, args, depth, ExclusiveMinimum) == c.exclusiveMinimum
    ensures NumberAt(rx, args, depth, ExclusiveMaximum) == c.exclusiveMaximum
    ensures CountAt(rx, args, depth, MinLength) == c.minLength && CountAt(rx, args, depth, MaxLength) == c.maxLength
    ensures CountAt(rx, args, depth, MinItems) == c.minItems && CountAt(rx, args, depth, MaxItems) == c.maxItems
  {
    hide NumberAt, CountAt, FieldJson, ArgumentsOk;
    NumberBack(rx, c, depth, args, Minimum);
    NumberBack(rx, c, depth, args, Maximum);
    NumberBack(rx, c, depth, args, ExclusiveMinimum);
    NumberBack(rx, c, depth, args, ExclusiveMaximum);
    CountBack(rx, c, depth, args, MinLength);
    CountBack(rx, c, depth, args, MaxLength);
    CountBack(rx, c, depth, args, MinItems);
    CountBack(rx, c, depth, args, MaxItems);
  }

  lemma NumberBack(rx: Regex, c: Constraint, depth: nat, args: Arguments, k: Keyword)
    requires ArgumentsOk(rx, args, depth) && k in {Minimum, Maximum, ExclusiveMinimum, ExclusiveMaximum}
    requires k in args <==> FieldJson(c, k).Some?
    requires k in args ==> Some(args[k]) == FieldJson(c, k)
    ensures NumberAt(rx, args, depth, k) ==
            match k case Minimum => c.minimum case Maximum => c.maximum case ExclusiveMinimum => c.exclusiveMinimum case _ => c.exclusiveMaximum
  {
    hide ToJson, Accepts;
  }

  lemma CountBack(rx: Regex, c: Constraint, depth: nat, args: Arguments, k: Keyword)
    requires ArgumentsOk(rx, args, depth) && k in {MinLength, MaxLength, MinItems, MaxItems}
    requires k in args <==> FieldJson(c, k).Some?
    requires k in args ==> Some(args[k]) == FieldJson(c, k)
    ensures CountAt(rx, args, depth, k) ==
            match k case MinLength => c.minLength case MaxLength => c.maxLength case MinItems => c.minItems case _ => c.maxItems
  {
    hide ToJson, Accepts;
  }

  /** `parse_constraint(c.to_json())` succeeds and gives `c` back, for every constraint parsing can
      produce, through every nested keyword and at every depth up to the limit. */
  lemma {:induction false} PrintParse(rx: Regex, c: Constraint, depth: nat)
    requires WellFormed(rx, c, depth)
    ensures Accepts(rx, ToJson(c), depth) && Parsed(rx, ToJson(c), depth) == c
    decreases c, 1
  {
    PrintedIsAccepted(rx, c, depth);
    PrintedArguments(c);
    var json := ToJson(c);
    AcceptedArguments(rx, json, depth);
    hide Accepts, ToJson, Name, KeywordOf, FieldJson, WellFormed, ArgumentsOk;
    var args := ArgumentsOf(json.fields);
    ValuesRoundTrip(rx, c, depth, args);
    NumberRoundTrip(rx, c, depth, args);
    PropertiesPrinted(c);
    PropertiesRoundTrip(rx, c, depth, args, json);
    BranchesRoundTrip(rx, c, depth, args, json);
    SchemasRoundTrip(rx, c, depth, args, json);
    assert ParsedArguments(rx, args, depth, json) == c;
  }

  lemma PropertiesPrinted(c: Constraint)
    ensures FieldJson(c, PropertiesK).Some? <==> c.properties.Properties?
    ensures FieldJson(c, AnyOf).Some? <==> c.anyOf.Branches?
  {
  }

  /** So parsing, printing and parsing again changes nothing. */
  lemma ParsePrintParse(rx: Regex, json: Json)
    requires Accepts(rx, json, 0)
    ensures var c := Parsed(rx, json, 0);
            Accepts(rx, ToJson(c), 0) && Parsed(rx, ToJson(c), 0) == c
  {
    ParsedIsWellFormed(rx, json, 0);
    PrintParse(rx, Parsed(rx, json, 0), 0);
  }

  // ---- The parser and the printer, step by step ---------------------------------------------

  /** What `parse_at` stores for one keyword. */
  function SetField(rx: Regex, c: Constraint, k: Keyword, v: Json, depth: nat): Constraint
    requires ArgumentOk(rx, k, v, depth)
  {
    match k
    case Enum => c.(enumValues := Some(v.items))
    case Const => c.(constValue := Some(v))
    case Type => c.(types := Some(Distinct(TypesIn(v))))
    case PropertiesK => c.(properties := Properties(ParsedMap(rx, v, depth)))
    case Required => c.(required := Some(Strings(v.items)))
    case AdditionalK => c.(additional := if v.Bool? then Allowed(v.b) else Schema(Parsed(rx, v, depth + 1)))
    case ItemsK => c.(items := Items(Parsed(rx, v, depth + 1)))
    case AnyOf => c.(anyOf := Branches(ParsedList(rx, v, depth)))
    case Minimum => c.(minimum := Some(v.n.Value()))
    case Maximum => c.(maximum := Some(v.n.Value()))
    case ExclusiveMinimum => c.(exclusiveMinimum := Some(v.n.Value()))
    case ExclusiveMaximum => c.(exclusiveMaximum := Some(v.n.Value()))
    case MinLength => c.(minLength := Some(v.n.i))
    case MaxLength => c.(maxLength := Some(v.n.i))
    case MinItems => c.(minItems := Some(v.n.i))
    case MaxItems => c.(maxItems := Some(v.n.i))
    case Pattern => c.(pattern := Some(v.s))
    case Class => c.(class_ := Some(CanonicalScheme(v.s)))
  }

  /** One more keyword changes exactly its own field, so the order of keywords does not matter. */
  lemma OneMoreArgument(rx: Regex, done: Arguments, k: Keyword, v: Json, depth: nat, json: Json)
    requires ArgumentsOk(rx, done, depth) && ArgumentOk(rx, k, v, depth) && k !in done
    requires v < json && forall j | j in done :: done[j] < json
    ensures ArgumentsOk(rx, done[k := v], depth)
    ensures ParsedArguments(rx, done[k := v], depth, json)
            == SetField(rx, ParsedArguments(rx, done, depth, json), k, v, depth)
  {
    hide Accepts, ParsedMap, ParsedList, Parsed, Strings, Distinct, TypesIn, CanonicalScheme;
    assert ArgumentsOk(rx, done[k := v], depth) by { hide ArgumentOk; }
    hide ArgumentOk;
  }

  /** The names of a `type` argument, each kept once; nothing when one is unknown or there is none. */
  method ParseTypes(v: Json) returns (r: Option<seq<JsonType>>)
    ensures r.Some? <==> IsTypes(v)
    ensures r.Some? ==> r.value == Distinct(TypesIn(v))
  {
    var names := if v.Arr? then v.items else [v];
    var types: seq<JsonType> := [];
    ghost var seen: seq<JsonType> := [];
    var i := 0;
    while i < |names|
      invariant 0 <= i <= |names|
      invariant |seen| == i && types == Distinct(seen)
      invariant forall j | 0 <= j < i :: names[j].Str? && TypeOf(names[j].s) == Some(seen[j])
    {
      if !names[i].Str? || TypeOf(names[i].s).None? { return None; }
      var t := TypeOf(names[i].s).value;
      assert (seen + [t])[..i] == seen;
      seen := seen + [t];
      if t !in types { types := types + [t]; }
      i := i + 1;
    }
    if types == [] {
      DistinctHasNoRepeats(seen);
      return None;
    }
    assert TypesIn(v) == seen;
    return Some(types);
  }

  method ParseRequired(v: Json) returns (r: Option<seq<string>>)
    ensures r.Some? <==> v.Arr? && forall i | 0 <= i < |v.items| :: v.items[i].Str?
    ensures r.Some? ==> r.value == Strings(v.items)
  {
    if !v.Arr? { return None; }
    var names: seq<string> := [];
    var i := 0;
    while i < |v.items|
      invariant 0 <= i <= |v.items| && |names| == i
      invariant forall j | 0 <= j < i :: v.items[j].Str? && v.items[j].s == names[j]
    {
      if !v.items[i].Str? { return None; }
      names := names + [v.items[i].s];
      i := i + 1;
    }
    assert names == Strings(v.items);
    return Some(names);
  }

  method ParseMap(rx: Regex, v: Json, depth: nat) returns (r: Option<map<string, Constraint>>)
    ensures r.Some? <==> v.Obj? && forall name | name in v.fields :: Accepts(rx, v.fields[name], depth + 1)
    ensures r.Some? ==> r.value == ParsedMap(rx, v, depth)
    decreases v, 1
  {
    hide Accepts, Parsed;
    if !v.Obj? { return None; }
    var out: map<string, Constraint> := map[];
    var todo := v.fields.Keys;
    while todo != {}
      invariant todo <= v.fields.Keys && out.Keys == v.fields.Keys - todo
      invariant forall name | name in out :: Accepts(rx, v.fields[name], depth + 1) && out[name] == Parsed(rx, v.fields[name], depth + 1)
      decreases todo
    {
      var name :| name in todo;
      var schema := ParseAt(rx, v.fields[name], depth + 1);
      if schema.None? { return None; }
      out := out[name := schema.value];
      todo := todo - {name};
    }
    assert out == ParsedMap(rx, v, depth);
    return Some(out);
  }

  method ParseList(rx: Regex, v: Json, depth: nat) returns (r: Option<seq<Constraint>>)
    ensures r.Some? <==> v.Arr? && v.items != [] && forall i | 0 <= i < |v.items| :: Accepts(rx, v.items[i], depth + 1)
    ensures r.Some? ==> r.value == ParsedList(rx, v, depth)
    decreases v, 1
  {
    hide Accepts, Parsed;
    if !v.Arr? || v.items == [] { return None; }
    var out: seq<Constraint> := [];
    var i := 0;
    while i < |v.items|
      invariant 0 <= i <= |v.items| && |out| == i
      invariant forall j | 0 <= j < i :: Accepts(rx, v.items[j], depth + 1) && out[j] == Parsed(rx, v.items[j], depth + 1)
    {
      var branch := ParseAt(rx, v.items[i], depth + 1);
      if branch.None? { return None; }
      out := out + [branch.value];
      i := i + 1;
    }
    assert out == ParsedList(rx, v, depth);
    return Some(out);
  }

  /** One turn of the loop over an object's keywords. */
  method ParseKeyword(rx: Regex, c: Constraint, k: Keyword, v: Json, depth: nat) returns (r: Option<Constraint>)
    ensures r.Some? <==> ArgumentOk(rx, k, v, depth)
    ensures r.Some? ==> r.value == SetField(rx, c, k, v, depth)
    decreases v, 2
  {
    hide Accepts, Parsed, ParsedMap, ParsedList, IsTypes, Distinct, TypesIn, Strings;
    match k {
      case Enum => if !v.Arr? { return None; } return Some(c.(enumValues := Some(v.items)));
      case Const => return Some(c.(constValue := Some(v)));
      case Type =>
        var types := ParseTypes(v);
        if types.None? { return None; }
        return Some(c.(types := types));
      case PropertiesK =>
        var map_ := ParseMap(rx, v, depth);
        if map_.None? { return None; }
        return Some(c.(properties := Properties(map_.value)));
      case Required =>
        var names := ParseRequired(v);
        if names.None? { return None; }
        return Some(c.(required := names));
      case AdditionalK =>
        if v.Bool? { return Some(c.(additional := Allowed(v.b))); }
        if !v.Obj? { return None; }
        var schema := ParseAt(rx, v, depth + 1);
        if schema.None? { return None; }
        return Some(c.(additional := Schema(schema.value)));
      case ItemsK =>
        var schema := ParseAt(rx, v, depth + 1);
        if schema.None? { return None; }
        return Some(c.(items := Items(schema.value)));
      case AnyOf =>
        var branches := ParseList(rx, v, depth);
        if branches.None? { return None; }
        return Some(c.(anyOf := Branches(branches.value)));
      case Minimum => if !v.Num? { return None; } return Some(c.(minimum := Some(v.n.Value())));
      case Maximum => if !v.Num? { return None; } return Some(c.(maximum := Some(v.n.Value())));
      case ExclusiveMinimum => if !v.Num? { return None; } return Some(c.(exclusiveMinimum := Some(v.n.Value())));
      case ExclusiveMaximum => if !v.Num? { return None; } return Some(c.(exclusiveMaximum := Some(v.n.Value())));
      case MinLength => if !IsCount(v) { return None; } return Some(c.(minLength := Some(v.n.i)));
      case MaxLength => if !IsCount(v) { return None; } return Some(c.(maxLength := Some(v.n.i)));
      case MinItems => if !IsCount(v) { return None; } return Some(c.(minItems := Some(v.n.i)));
      case MaxItems => if !IsCount(v) { return None; } return Some(c.(maxItems := Some(v.n.i)));
      case Pattern => if !v.Str? || !rx.compiles(v.s) { return None; } return Some(c.(pattern := Some(v.s)));
      case Class => if depth > 0 || !v.Str? { return None; } return Some(c.(class_ := Some(CanonicalScheme(v.s))));
    }
  }

  /** `parse_at`: succeeds exactly on the accepted JSON, whatever order the keywords come in. */
  method ParseAt(rx: Regex, json: Json, depth: nat) returns (r: Option<Constraint>)
    ensures r.Some? <==> Accepts(rx, json, depth)
    ensures r.Some? ==> r.value == Parsed(rx, json, depth)
    decreases json, 0
  {
    hide Name, KeywordOf, ArgumentOk, SetField, ParsedArguments;
    if depth > MAX_DEPTH || !json.Obj? { return None; }
    var c := EMPTY;
    var todo := json.fields.Keys;
    ghost var done: Arguments := map[];
    assert c == ParsedArguments(rx, done, depth, json) by { NothingParsed(rx, depth, json); }
    while todo != {}
      invariant todo <= json.fields.Keys
      invariant forall s | s in json.fields && s !in todo ::
                  KeywordOf(s).Some? && ArgumentOk(rx, KeywordOf(s).value, json.fields[s], depth)
      invariant forall k: Keyword :: k in done <==> Name(k) in json.fields && Name(k) !in todo
      invariant forall k | k in done :: done[k] == json.fields[Name(k)] && done[k] < json
      invariant ArgumentsOk(rx, done, depth)
      invariant c == ParsedArguments(rx, done, depth, json)
      decreases todo
    {
      var s :| s in todo;
      if KeywordOf(s).None? { return None; }
      var k := KeywordOf(s).value;
      var next := ParseKeyword(rx, c, k, json.fields[s], depth);
      if next.None? { return None; }
      KeywordName(s);
      OneMoreArgument(rx, done, k, json.fields[s], depth, json);
      forall j: Keyword | Name(j) == s ensures j == k { NameKeyword(j); }
      c := next.value;
      done := done[k := json.fields[s]];
      todo := todo - {s};
    }
    assert done == ArgumentsOf(json.fields);
    return Some(c);
  }

  lemma NothingParsed(rx: Regex, depth: nat, json: Json)
    ensures ParsedArguments(rx, map[], depth, json) == EMPTY
  {
  }
}
