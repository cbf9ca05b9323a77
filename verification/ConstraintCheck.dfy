/** Checking a JSON value against a constraint (`check_json` in `lib/src/class_constraints.rs`), against
    what each keyword means (section 6 of JSON Schema Validation draft 2020-12). */
module ConstraintCheck {
  import opened Basics
  import opened Text
  import opened JsonValues
  import opened Constraints

  // ---- What each keyword means --------------------------------------------------------------

  predicate InEnum(allowed: seq<Json>, v: Json) {
    exists i | 0 <= i < |allowed| :: JsonEq(allowed[i], v)
  }

  predicate HasType(v: Json, t: JsonType) {
    match t
    case StringT => v.Str?
    case BooleanT => v.Bool?
    case NullT => v.Null?
    case ObjectT => v.Obj?
    case ArrayT => v.Arr?
    case NumberT => v.Num?
    case IntegerT => v.Num? && v.n.Value().Floor as real == v.n.Value()
  }

  /** An enum holds a value exactly when one of its members is that value, node by node. */
  lemma InEnumIff(allowed: seq<Json>, v: Json)
    ensures InEnum(allowed, v) <==> exists a :: a in allowed && forall path :: SameAt(a, v, path)
  {
    hide JsonEq, SameAt;
    if InEnum(allowed, v) {
      var i :| 0 <= i < |allowed| && JsonEq(allowed[i], v);
      JsonEqIff(allowed[i], v);
      assert allowed[i] in allowed;
    }
    if exists a :: a in allowed && forall path :: SameAt(a, v, path) {
      var a :| a in allowed && forall path :: SameAt(a, v, path);
      JsonEqIff(a, v);
    }
  }

  /** The type of a value, apart from integers, which are the numbers without a fraction. */
  function TypeOfValue(v: Json): JsonType {
    match v
    case Null => NullT
    case Bool(_) => BooleanT
    case Num(_) => NumberT
    case Str(_) => StringT
    case Arr(_) => ArrayT
    case Obj(_) => ObjectT
  }

  /** A value has its own type and no other, and is an integer exactly when it is the number of one, however
      it is written. */
  lemma HasTypeIff(v: Json, t: JsonType)
    ensures t != IntegerT ==> (HasType(v, t) <==> t == TypeOfValue(v))
    ensures HasType(v, IntegerT) <==> exists i: int :: v == Num(Int(i)) || v == Num(Float(i as real))
  {
    if HasType(v, IntegerT) {
      var i := v.n.Value().Floor;
      assert v == Num(Int(i)) || v == Num(Float(i as real));
    }
    if i: int :| v == Num(Int(i)) || v == Num(Float(i as real)) {
      assert v.n.Value() == i as real;
    }
  }

  /** Whether `v` meets what keyword `k` of `c` says; `top` is true only for a property's whole value,
      where `enum` speaks about each item of an array. A keyword that is not set, or that is about
      another JSON type, is met. */
  predicate Meets(rx: Regex, c: Constraint, k: Keyword, v: Json, top: bool)
    decreases c, 0
  {
    match k
    case Enum =>
      c.enumValues.Some? ==>
        if v.Arr? && top then forall i | 0 <= i < |v.items| :: InEnum(c.enumValues.value, v.items[i])
        else InEnum(c.enumValues.value, v)
    case Const => c.constValue.Some? ==> JsonEq(c.constValue.value, v)
    case Type => c.types.Some? ==> exists i | 0 <= i < |c.types.value| :: HasType(v, c.types.value[i])
    case PropertiesK =>
      v.Obj? && c.properties.Properties? ==>
        forall key | key in c.properties.of :: key in v.fields ==> Valid(rx, c.properties.of[key], v.fields[key], false)
    case AdditionalK =>
      v.Obj? && !c.additional.NoAdditional? ==>
        forall key | key in v.fields && !Listed(c, key) ::
          if c.additional.Allowed? then c.additional.allowed else Valid(rx, c.additional.schema, v.fields[key], false)
    case Required => v.Obj? && c.required.Some? ==> forall i | 0 <= i < |c.required.value| :: c.required.value[i] in v.fields
    case ItemsK =>
      v.Arr? && c.items.Items? ==> forall i | 0 <= i < |v.items| :: Valid(rx, c.items.schema, v.items[i], false)
    case AnyOf =>
      c.anyOf.Branches? && c.anyOf.of != [] ==> exists i | 0 <= i < |c.anyOf.of| :: Valid(rx, c.anyOf.of[i], v, false)
    case Minimum => v.Num? && c.minimum.Some? ==> v.n.Value() >= c.minimum.value
    case Maximum => v.Num? && c.maximum.Some? ==> v.n.Value() <= c.maximum.value
    case ExclusiveMinimum => v.Num? && c.exclusiveMinimum.Some? ==> v.n.Value() > c.exclusiveMinimum.value
    case ExclusiveMaximum => v.Num? && c.exclusiveMaximum.Some? ==> v.n.Value() < c.exclusiveMaximum.value
    case MinLength => v.Str? && c.minLength.Some? ==> |v.s| >= c.minLength.value
    case MaxLength => v.Str? && c.maxLength.Some? ==> |v.s| <= c.maxLength.value
    case MinItems => v.Arr? && c.minItems.Some? ==> |v.items| >= c.minItems.value
    case MaxItems => v.Arr? && c.maxItems.Some? ==> |v.items| <= c.maxItems.value
    case Pattern => v.Str? && c.pattern.Some? ==> rx.matches(c.pattern.value, v.s)
    case Class => true
  }

  predicate Listed(c: Constraint, key: string) {
    c.properties.Properties? && key in c.properties.of
  }

  /** A value is valid when it meets every keyword. */
  predicate Valid(rx: Regex, c: Constraint, v: Json, top: bool)
    decreases c, 1
  {
    forall k: Keyword :: Meets(rx, c, k, v, top)
  }

  // ---- Where a check may fail ---------------------------------------------------------------

  /** The nesting depth stays within the limit when the check starts at `depth`. */
  predicate Fits(c: Constraint, depth: nat) {
    && depth <= MAX_DEPTH
    && (c.properties.Properties? ==> forall name | name in c.properties.of :: Fits(c.properties.of[name], depth + 1))
    && (c.additional.Schema? ==> Fits(c.additional.schema, depth + 1))
    && (c.items.Items? ==> Fits(c.items.schema, depth + 1))
    && (c.anyOf.Branches? ==> forall i | 0 <= i < |c.anyOf.of| :: Fits(c.anyOf.of[i], depth + 1))
  }

  /** A constraint that parsed never nests deeper than a check may go. */
  lemma {:induction false} WellFormedFits(rx: Regex, c: Constraint, depth: nat)
    requires WellFormed(rx, c, depth)
    ensures Fits(c, depth)
    decreases c
  {
    if c.properties.Properties? {
      forall name | name in c.properties.of ensures Fits(c.properties.of[name], depth + 1) {
        WellFormedFits(rx, c.properties.of[name], depth + 1);
      }
    }
    if c.additional.Schema? { WellFormedFits(rx, c.additional.schema, depth + 1); }
    if c.items.Items? { WellFormedFits(rx, c.items.schema, depth + 1); }
    if c.anyOf.Branches? {
      forall i | 0 <= i < |c.anyOf.of| ensures Fits(c.anyOf.of[i], depth + 1) {
        WellFormedFits(rx, c.anyOf.of[i], depth + 1);
      }
    }
  }

  /** Following `path` into the value and, beside it, into the schemas that apply there, keyword `k` of
      the schema reached is broken by the value reached. */
  predicate Breaks(rx: Regex, c: Constraint, v: Json, top: bool, path: seq<string>, k: Keyword)
    decreases c
  {
    if path == [] then !Meets(rx, c, k, v, top)
    else if v.Arr? then
      c.items.Items? && exists i | 0 <= i < |v.items| ::
        path[0] == NatToString(i) && Breaks(rx, c.items.schema, v.items[i], false, path[1..], k)
    else
      && v.Obj? && path[0] in v.fields
      && if Listed(c, path[0]) then Breaks(rx, c.properties.of[path[0]], v.fields[path[0]], false, path[1..], k)
         else if c.additional.Schema? then Breaks(rx, c.additional.schema, v.fields[path[0]], false, path[1..], k)
         else c.additional == Allowed(false) && |path| == 1 && k == AdditionalK
  }

  /** A broken keyword anywhere along the schemas makes the whole value invalid, and its path leads
      somewhere in the value. */
  lemma {:induction false} BreaksRefutes(rx: Regex, c: Constraint, v: Json, top: bool, path: seq<string>, k: Keyword)
    requires Breaks(rx, c, v, top, path, k)
    ensures !Valid(rx, c, v, top)
    ensures Descend(v, path).Some?
    decreases c
  {
    if path != [] {
      if v.Arr? {
        var i :| 0 <= i < |v.items| && path[0] == NatToString(i) && Breaks(rx, c.items.schema, v.items[i], false, path[1..], k);
        BreaksRefutes(rx, c.items.schema, v.items[i], false, path[1..], k);
        IndexRoundTrip(i);
        assert !Meets(rx, c, ItemsK, v, top);
      } else if Listed(c, path[0]) {
        BreaksRefutes(rx, c.properties.of[path[0]], v.fields[path[0]], false, path[1..], k);
        assert !Meets(rx, c, PropertiesK, v, top);
      } else {
        if c.additional.Schema? {
          BreaksRefutes(rx, c.additional.schema, v.fields[path[0]], false, path[1..], k);
        } else {
          assert path[1..] == [];
        }
        assert !Meets(rx, c, AdditionalK, v, top);
      }
    }
  }

  // ---- The order keys are checked in --------------------------------------------------------

  predicate Least(key: string, keys: set<string>) {
    key in keys && forall other | other in keys :: other == key || Before(key, other)
  }

  lemma {:induction false} LeastExists(keys: set<string>)
    requires keys != {}
    ensures exists key :: Least(key, keys)
    decreases keys
  {
    var any :| any in keys;
    var rest := keys - {any};
    if rest == {} {
      assert keys == {any};
      assert Least(any, keys);
    } else {
      LeastExists(rest);
      var key :| Least(key, rest);
      BeforeTotal(any, key);
      if Before(any, key) {
        forall other | other in keys ensures other == any || Before(any, other) {
          if other != any && other != key { BeforeTransitive(any, key, other); }
        }
        assert Least(any, keys);
      } else {
        assert Least(key, keys);
      }
    }
  }

  // ---- The checker --------------------------------------------------------------------------

  datatype Blame = Keyword(k: Keyword) | TooDeep

  /** `ConstraintError` without its text: the keyword and the JSON pointer of the failing value. */
  datatype ConstraintError = ConstraintError(blame: Blame, path: string)

  /** `enum`, `const` and `type`, in that order. */
  method CheckValue(rx: Regex, c: Constraint, v: Json, top: bool) returns (k: Option<Constraints.Keyword>)
    ensures k.Some? ==> !Meets(rx, c, k.value, v, top)
    ensures k.None? ==> Meets(rx, c, Enum, v, top) && Meets(rx, c, Const, v, top) && Meets(rx, c, Type, v, top)
  {
    if c.enumValues.Some? {
      var items := if v.Arr? && top then v.items else [v];
      var i := 0;
      while i < |items|
        invariant 0 <= i <= |items|
        invariant forall j | 0 <= j < i :: InEnum(c.enumValues.value, items[j])
      {
        if !InEnum(c.enumValues.value, items[i]) { return Some(Enum); }
        i := i + 1;
      }
      assert !(v.Arr? && top) ==> items[0] == v;
    }
    if c.constValue.Some? && !JsonEq(c.constValue.value, v) { return Some(Const); }
    if c.types.Some? && !(exists i | 0 <= i < |c.types.value| :: HasType(v, c.types.value[i])) { return Some(Type); }
    return None;
  }

  predicate IsLimit(k: Keyword) {
    k in {Minimum, Maximum, ExclusiveMinimum, ExclusiveMaximum, MinLength, MaxLength, Pattern, MinItems, MaxItems}
  }

  /** The bounds of numbers and the lengths of strings and arrays. */
  method CheckLimits(rx: Regex, c: Constraint, v: Json, top: bool) returns (k: Option<Constraints.Keyword>)
    ensures k.Some? ==> !Meets(rx, c, k.value, v, top)
    ensures k.None? ==> forall j: Keyword | IsLimit(j) :: Meets(rx, c, j, v, top)
  {
    match v {
      case Num(n) =>
        var x := n.Value();
        if c.minimum.Some? && x < c.minimum.value { return Some(Minimum); }
        if c.maximum.Some? && x > c.maximum.value { return Some(Maximum); }
        if c.exclusiveMinimum.Some? && x <= c.exclusiveMinimum.value { return Some(ExclusiveMinimum); }
        if c.exclusiveMaximum.Some? && x >= c.exclusiveMaximum.value { return Some(ExclusiveMaximum); }
      case Str(s) =>
        if c.minLength.Some? && |s| < c.minLength.value { return Some(MinLength); }
        if c.maxLength.Some? && |s| > c.maxLength.value { return Some(MaxLength); }
        if c.pattern.Some? && !rx.matches(c.pattern.value, s) { return Some(Pattern); }
      case Arr(items) =>
        if c.minItems.Some? && |items| < c.minItems.value { return Some(MinItems); }
        if c.maxItems.Some? && |items| > c.maxItems.value { return Some(MaxItems); }
      case _ =>
    }
    return None;
  }

  /** What a check that came back may say: nothing and the path as it was, or an error whose pointer is
      the path plus `suffix`, which leads into `v`, and which names a keyword broken there. */
  ghost predicate Outcome(rx: Regex, c: Constraint, v: Json, path: seq<string>, depth: nat,
                          r: Option<ConstraintError>, path': seq<string>, suffix: seq<string>)
  {
    && (r.None? ==> path' == path)
    && (r.Some? ==> r.value.path == PointerOf(path + suffix) && Descend(v, suffix).Some?)
    && (r.Some? && Fits(c, depth) ==>
          r.value.blame.Keyword? && Breaks(rx, c, v, depth == 0, suffix, r.value.blame.k))
  }

  method CheckItems(rx: Regex, c: Constraint, v: Json, path: seq<string>, depth: nat)
      returns (r: Option<ConstraintError>, path': seq<string>, ghost suffix: seq<string>)
    requires v.Arr? && c.items.Items?
    ensures Outcome(rx, c, v, path, depth, r, path', suffix)
    ensures r.None? && Fits(c, depth) ==> Meets(rx, c, ItemsK, v, depth == 0)
    decreases c, 0
  {
    r, path', suffix := None, path, [];
    var i := 0;
    while i < |v.items|
      invariant 0 <= i <= |v.items| && path' == path && r.None?
      invariant Fits(c, depth) ==> forall j | 0 <= j < i :: Valid(rx, c.items.schema, v.items[j], false)
    {
      path' := path' + [NatToString(i)];
      ghost var inner;
      r, path', inner := CheckAt(rx, c.items.schema, v.items[i], path', depth + 1);
      if r.Some? {
        suffix := [NatToString(i)] + inner;
        IndexRoundTrip(i);
        assert suffix[1..] == inner && path + [NatToString(i)] + inner == path + suffix;
        return;
      }
      path' := path'[..|path'| - 1];
      assert path' == path;
      i := i + 1;
    }
  }

  /** What one key of an object must satisfy. */
  ghost predicate KeyOk(rx: Regex, c: Constraint, v: Json, key: string)
    requires v.Obj? && key in v.fields
  {
    if Listed(c, key) then Valid(rx, c.properties.of[key], v.fields[key], false)
    else if c.additional.Schema? then Valid(rx, c.additional.schema, v.fields[key], false)
    else c.additional != Allowed(false)
  }

  method CheckFields(rx: Regex, c: Constraint, v: Json, path: seq<string>, depth: nat)
      returns (r: Option<ConstraintError>, path': seq<string>, ghost suffix: seq<string>)
    requires v.Obj?
    ensures Outcome(rx, c, v, path, depth, r, path', suffix)
    ensures r.None? && Fits(c, depth) ==>
              Meets(rx, c, Required, v, depth == 0) && Meets(rx, c, PropertiesK, v, depth == 0) && Meets(rx, c, AdditionalK, v, depth == 0)
    // keys are checked in order: every key before the one blamed is in order
    ensures r.Some? && suffix != [] && Fits(c, depth) ==>
              forall key | key in v.fields && Before(key, suffix[0]) :: KeyOk(rx, c, v, key)
    decreases c, 0
  {
    r, path', suffix := None, path, [];
    assert path + [] == path;
    if c.required.Some? {
      var i := 0;
      while i < |c.required.value|
        invariant 0 <= i <= |c.required.value|
        invariant forall j | 0 <= j < i :: c.required.value[j] in v.fields
      {
        if c.required.value[i] !in v.fields {
          return Some(ConstraintError(Keyword(Required), PointerOf(path))), path, [];
        }
        i := i + 1;
      }
    }
    var todo := v.fields.Keys;
    while todo != {}
      invariant todo <= v.fields.Keys && path' == path && r.None?
      invariant Fits(c, depth) ==> forall key | key in v.fields && key !in todo :: KeyOk(rx, c, v, key)
      invariant forall key, other | key in v.fields && key !in todo && other in todo :: Before(key, other)
      decreases todo
    {
      LeastExists(todo);
      var key :| Least(key, todo);
      forall other | other in v.fields && Before(other, key) ensures other !in todo {
        if other in todo { NotBothBefore(other, key); }
      }
      if !Listed(c, key) && c.additional == Allowed(false) {
        path' := path' + [key];
        r := Some(ConstraintError(Keyword(AdditionalK), PointerOf(path')));
        path' := path'[..|path'| - 1];
        suffix := [key];
        return;
      }
      if Listed(c, key) || c.additional.Schema? {
        var schema := if Listed(c, key) then c.properties.of[key] else c.additional.schema;
        path' := path' + [key];
        ghost var inner;
        r, path', inner := CheckAt(rx, schema, v.fields[key], path', depth + 1);
        if r.Some? {
          suffix := [key] + inner;
          assert suffix[1..] == inner && path + [key] + inner == path + suffix;
          return;
        }
        path' := path'[..|path'| - 1];
        assert path' == path;
      }
      todo := todo - {key};
    }
  }

  /** `anyOf`: each branch gets its own copy of the path, and only when every one fails is it an error. */
  method CheckBranches(rx: Regex, c: Constraint, v: Json, path: seq<string>, depth: nat) returns (broken: bool)
    requires c.anyOf.Branches?
    ensures Fits(c, depth) ==> (broken <==> !Meets(rx, c, AnyOf, v, depth == 0))
    decreases c, 0
  {
    var reasons: seq<ConstraintError> := [];
    var i := 0;
    while i < |c.anyOf.of|
      invariant 0 <= i <= |c.anyOf.of| && |reasons| == i
      invariant Fits(c, depth) ==> forall j | 0 <= j < i :: !Valid(rx, c.anyOf.of[j], v, false)
    {
      var copy := path;
      var error, _, suffix := CheckAt(rx, c.anyOf.of[i], v, copy, depth + 1);
      if error.None? {
        reasons := [];
        break;
      }
      if Fits(c, depth) { BreaksRefutes(rx, c.anyOf.of[i], v, false, suffix, error.value.blame.k); }
      reasons := reasons + [error.value];
      i := i + 1;
    }
    broken := reasons != [];
  }

  /** `check_at`. */
  method CheckAt(rx: Regex, c: Constraint, v: Json, path: seq<string>, depth: nat)
      returns (r: Option<ConstraintError>, path': seq<string>, ghost suffix: seq<string>)
    ensures Outcome(rx, c, v, path, depth, r, path', suffix)
    ensures r.None? && Fits(c, depth) ==> Valid(rx, c, v, depth == 0)
    decreases c, 1
  {
    r, path', suffix := None, path, [];
    assert path + [] == path;
    if depth > MAX_DEPTH { return Some(ConstraintError(TooDeep, PointerOf(path))), path, []; }
    var broken := CheckValue(rx, c, v, depth == 0);
    if broken.Some? { return Some(ConstraintError(Keyword(broken.value), PointerOf(path))), path, []; }
    broken := CheckLimits(rx, c, v, depth == 0);
    if broken.Some? { return Some(ConstraintError(Keyword(broken.value), PointerOf(path))), path, []; }
    if v.Arr? && c.items.Items? {
      r, path', suffix := CheckItems(rx, c, v, path, depth);
      if r.Some? { return; }
    }
    if v.Obj? {
      r, path', suffix := CheckFields(rx, c, v, path, depth);
      if r.Some? { return; }
    }
    if c.anyOf.Branches? {
      var none := CheckBranches(rx, c, v, path', depth);
      if none { return Some(ConstraintError(Keyword(AnyOf), PointerOf(path))), path, []; }
    }
    if Fits(c, depth) { EveryKeyword(rx, c, v, depth == 0); }
  }

  lemma EveryKeyword(rx: Regex, c: Constraint, v: Json, top: bool)
    requires Meets(rx, c, Enum, v, top) && Meets(rx, c, Const, v, top) && Meets(rx, c, Type, v, top)
    requires forall j: Keyword | IsLimit(j) :: Meets(rx, c, j, v, top)
    requires v.Arr? && c.items.Items? ==> Meets(rx, c, ItemsK, v, top)
    requires v.Obj? ==>
               Meets(rx, c, Required, v, top) && Meets(rx, c, PropertiesK, v, top) && Meets(rx, c, AdditionalK, v, top)
    requires c.anyOf.Branches? ==> Meets(rx, c, AnyOf, v, top)
    ensures Valid(rx, c, v, top)
  {
    forall k: Keyword ensures Meets(rx, c, k, v, top) {
      if !IsLimit(k) {
        assert k.Enum? || k.Const? || k.Type? || k.ItemsK? || k.PropertiesK? || k.AdditionalK? || k.Required?
               || k.AnyOf? || k.Class?;
      }
    }
  }

  /** `check_json` decides validity for every constraint that parsed and every value: it accepts exactly
      the valid ones, never runs into the depth limit, leaves the path as it was, and on failure gives a
      pointer that resolves in the value and a keyword that is broken at the place it names. */
  method CheckJson(rx: Regex, c: Constraint, v: Json) returns (r: Option<ConstraintError>, ghost at: seq<string>)
    requires WellFormed(rx, c, 0)
    ensures r.None? <==> Valid(rx, c, v, true)
    ensures r.Some? ==> r.value.blame.Keyword? && r.value.path == PointerOf(at) && Resolve(v, r.value.path).Some?
    ensures r.Some? ==> Breaks(rx, c, v, true, at, r.value.blame.k)
  {
    WellFormedFits(rx, c, 0);
    var path;
    r, path, at := CheckAt(rx, c, v, [], 0);
    assert [] + at == at;
    if r.Some? {
      PointerResolves(v, at);
      BreaksRefutes(rx, c, v, true, at, r.value.blame.k);
    }
  }
}
