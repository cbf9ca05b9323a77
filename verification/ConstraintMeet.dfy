/** Combining the constraints of several classes (`tighten`, `overlay` and `effective_constraint` in
    `lib/src/class_constraints.rs`). */
module ConstraintMeet {
  import opened Basics
  import opened JsonValues
  import opened Constraints
  import opened ConstraintCheck

  // ---- The operations -----------------------------------------------------------------------

  function LowerBound(a: Option<real>, b: Option<real>): Option<real> {
    if a.Some? && b.Some? then (if b.value > a.value then b else a) else if a.Some? then a else b
  }

  function UpperBound(a: Option<real>, b: Option<real>): Option<real> {
    if a.Some? && b.Some? then (if b.value < a.value then b else a) else if a.Some? then a else b
  }

  function LeastCount(a: Option<nat>, b: Option<nat>): Option<nat> {
    if a.Some? && b.Some? then (if b.value > a.value then b else a) else if a.Some? then a else b
  }

  function MostCount(a: Option<nat>, b: Option<nat>): Option<nat> {
    if a.Some? && b.Some? then (if b.value < a.value then b else a) else if a.Some? then a else b
  }

  /** The values of `a` that `b` has too. */
  function Common(a: seq<Json>, b: seq<Json>): seq<Json> {
    if a == [] then []
    else if exists j | 0 <= j < |b| :: JsonEq(a[0], b[j]) then [a[0]] + Common(a[1..], b)
    else Common(a[1..], b)
  }

  function Tighten(a: Constraint, b: Constraint): Constraint {
    Constraint(
      if a.enumValues.Some? && b.enumValues.Some? then Some(Common(a.enumValues.value, b.enumValues.value))
      else a.enumValues.Or(b.enumValues),
      a.constValue.Or(b.constValue),
      a.types.Or(b.types),
      if a.properties.Properties? then a.properties else b.properties,
      a.required.Or(b.required),
      if a.additional.NoAdditional? then b.additional else a.additional,
      if a.items.Items? then a.items else b.items,
      if a.anyOf.Branches? then a.anyOf else b.anyOf,
      LowerBound(a.minimum, b.minimum),
      UpperBound(a.maximum, b.maximum),
      LowerBound(a.exclusiveMinimum, b.exclusiveMinimum),
      UpperBound(a.exclusiveMaximum, b.exclusiveMaximum),
      LeastCount(a.minLength, b.minLength),
      MostCount(a.maxLength, b.maxLength),
      LeastCount(a.minItems, b.minItems),
      MostCount(a.maxItems, b.maxItems),
      a.pattern.Or(b.pattern),
      a.class_.Or(b.class_))
  }

  /** `under` with every keyword `top` sets replacing its own. */
  function Overlay(under: Constraint, top: Constraint): Constraint {
    Constraint(
      top.enumValues.Or(under.enumValues),
      top.constValue.Or(under.constValue),
      top.types.Or(under.types),
      if top.properties.Properties? then top.properties else under.properties,
      top.required.Or(under.required),
      if top.additional.NoAdditional? then under.additional else top.additional,
      if top.items.Items? then top.items else under.items,
      if top.anyOf.Branches? then top.anyOf else under.anyOf,
      top.minimum.Or(under.minimum),
      top.maximum.Or(under.maximum),
      top.exclusiveMinimum.Or(under.exclusiveMinimum),
      top.exclusiveMaximum.Or(under.exclusiveMaximum),
      top.minLength.Or(under.minLength),
      top.maxLength.Or(under.maxLength),
      top.minItems.Or(under.minItems),
      top.maxItems.Or(under.maxItems),
      top.pattern.Or(under.pattern),
      top.class_.Or(under.class_))
  }

  // ---- When tightening is conjunction -------------------------------------------------------

  predicate OneSets<T(==)>(a: Option<T>, b: Option<T>) {
    a.None? || b.None? || a == b
  }

  predicate NoObjectRules(c: Constraint) {
    c.properties.NoProperties? && c.additional.NoAdditional?
  }

  /** Of each keyword where `tighten` lets `self` win, at most one side has one (or both have the same);
      `properties` and `additionalProperties` speak about each other, so they go together. The keywords
      `enum`, the four bounds and the four counts are unrestricted. */
  predicate Mergeable(a: Constraint, b: Constraint) {
    && OneSets(a.pattern, b.pattern) && OneSets(a.constValue, b.constValue) && OneSets(a.types, b.types)
    && OneSets(a.required, b.required)
    && (a.items.NoItems? || b.items.NoItems? || a.items == b.items)
    && (a.anyOf.NoBranches? || b.anyOf.NoBranches? || a.anyOf == b.anyOf)
    && (NoObjectRules(a) || NoObjectRules(b) || (a.properties == b.properties && a.additional == b.additional))
  }

  lemma {:induction false} CommonMeans(a: seq<Json>, b: seq<Json>, v: Json)
    ensures InEnum(Common(a, b), v) <==> InEnum(a, v) && InEnum(b, v)
  {
    if a != [] {
      CommonMeans(a[1..], b, v);
      var rest := Common(a[1..], b);
      var shared := exists j | 0 <= j < |b| :: JsonEq(a[0], b[j]);
      InEnumCons(a, v);
      if shared { InEnumCons([a[0]] + rest, v); assert ([a[0]] + rest)[1..] == rest; }
      if JsonEq(a[0], v) {
        if shared {
          var j :| 0 <= j < |b| && JsonEq(a[0], b[j]);
          JsonEqSymmetric(a[0], b[j]);
          JsonEqTransitive(b[j], a[0], v);
        } else if InEnum(b, v) {
          var j :| 0 <= j < |b| && JsonEq(b[j], v);
          JsonEqSymmetric(b[j], v);
          JsonEqTransitive(a[0], v, b[j]);
          assert false;
        }
      }
    }
  }

  lemma InEnumCons(a: seq<Json>, v: Json)
    requires a != []
    ensures InEnum(a, v) <==> JsonEq(a[0], v) || InEnum(a[1..], v)
  {
    if InEnum(a, v) {
      var i :| 0 <= i < |a| && JsonEq(a[i], v);
      if i > 0 { assert a[1..][i - 1] == a[i]; }
    }
    if InEnum(a[1..], v) {
      var i :| 0 <= i < |a[1..]| && JsonEq(a[1..][i], v);
      assert a[i + 1] == a[1..][i];
    }
  }

  lemma TightenEnum(rx: Regex, a: Constraint, b: Constraint, v: Json, top: bool)
    ensures Meets(rx, Tighten(a, b), Enum, v, top) <==> Meets(rx, a, Enum, v, top) && Meets(rx, b, Enum, v, top)
  {
    hide InEnum, Common;
    if a.enumValues.Some? && b.enumValues.Some? {
      CommonMeans(a.enumValues.value, b.enumValues.value, v);
      if v.Arr? {
        forall i | 0 <= i < |v.items|
          ensures InEnum(Common(a.enumValues.value, b.enumValues.value), v.items[i])
                  <==> InEnum(a.enumValues.value, v.items[i]) && InEnum(b.enumValues.value, v.items[i])
        {
          CommonMeans(a.enumValues.value, b.enumValues.value, v.items[i]);
        }
      }
    }
  }

  lemma TightenLimit(rx: Regex, a: Constraint, b: Constraint, k: Keyword, v: Json, top: bool)
    requires IsLimit(k) && OneSets(a.pattern, b.pattern)
    ensures Meets(rx, Tighten(a, b), k, v, top) <==> Meets(rx, a, k, v, top) && Meets(rx, b, k, v, top)
  {
    hide Common, InEnum, Valid;
  }

  lemma TightenNested(rx: Regex, a: Constraint, b: Constraint, k: Keyword, v: Json, top: bool)
    requires Mergeable(a, b) && k != Enum && !IsLimit(k)
    ensures Meets(rx, Tighten(a, b), k, v, top) <==> Meets(rx, a, k, v, top) && Meets(rx, b, k, v, top)
  {
    hide Common, InEnum, Valid, LowerBound, UpperBound, LeastCount, MostCount;
  }

  lemma TightenKeyword(rx: Regex, a: Constraint, b: Constraint, k: Keyword, v: Json, top: bool)
    requires Mergeable(a, b)
    ensures Meets(rx, Tighten(a, b), k, v, top) <==> Meets(rx, a, k, v, top) && Meets(rx, b, k, v, top)
  {
    hide Meets, Tighten;
    if k == Enum { TightenEnum(rx, a, b, v, top); }
    else if IsLimit(k) { TightenLimit(rx, a, b, k, v, top); }
    else { TightenNested(rx, a, b, k, v, top); }
  }

  /** `check_json(a.tighten(b), v)` accepts exactly what both `a` and `b` accept. */
  lemma TightenIsConjunction(rx: Regex, a: Constraint, b: Constraint, v: Json, top: bool)
    requires Mergeable(a, b)
    ensures Valid(rx, Tighten(a, b), v, top) <==> Valid(rx, a, v, top) && Valid(rx, b, v, top)
  {
    hide Meets;
    forall k: Keyword
      ensures Meets(rx, Tighten(a, b), k, v, top) <==> Meets(rx, a, k, v, top) && Meets(rx, b, k, v, top)
    {
      TightenKeyword(rx, a, b, k, v, top);
    }
  }

  /** Tightening `a` with `b` accepts exactly what both accept. */
  ghost predicate IsMeet(rx: Regex, a: Constraint, b: Constraint) {
    forall v: Json :: Valid(rx, Tighten(a, b), v, true) <==> Valid(rx, a, v, true) && Valid(rx, b, v, true)
  }

  /** Why the restriction is needed: for two constants tightening is conjunction exactly when the
      constants are equal values. */
  lemma TightenConstIff(rx: Regex, x: Json, y: Json)
    ensures IsMeet(rx, EMPTY.(constValue := Some(x)), EMPTY.(constValue := Some(y))) <==> JsonEq(x, y)
  {
    hide Valid;
    var a, b := EMPTY.(constValue := Some(x)), EMPTY.(constValue := Some(y));
    assert Tighten(a, b) == a;
    JsonEqReflexive(x);
    OnlyConst(rx, x, x);
    OnlyConst(rx, y, x);
    if IsMeet(rx, a, b) {
      assert Valid(rx, Tighten(a, b), x, true);
      JsonEqSymmetric(y, x);
    }
    if JsonEq(x, y) {
      JsonEqSymmetric(x, y);
      forall v: Json ensures Valid(rx, Tighten(a, b), v, true) <==> Valid(rx, a, v, true) && Valid(rx, b, v, true) {
        OnlyConst(rx, x, v);
        OnlyConst(rx, y, v);
        if JsonEq(x, v) { JsonEqTransitive(y, x, v); }
      }
    }
  }

  lemma OnlyConst(rx: Regex, x: Json, v: Json)
    ensures Valid(rx, EMPTY.(constValue := Some(x)), v, true) <==> JsonEq(x, v)
  {
    var c := EMPTY.(constValue := Some(x));
    assert Meets(rx, c, Const, v, true) <==> JsonEq(x, v);
    forall k: Keyword | k != Const ensures Meets(rx, c, k, v, true) {}
  }

  // ---- Several classes ----------------------------------------------------------------------

  ghost predicate AllMergeable(cs: seq<Constraint>) {
    forall x, y :: x in cs && y in cs ==> Mergeable(x, y)
  }

  /** The class constraints tightened together, in order. */
  function Fold(cs: seq<Constraint>): Constraint
    requires cs != []
    decreases |cs|
  {
    if |cs| == 1 then cs[0] else Tighten(Fold(cs[..|cs| - 1]), cs[|cs| - 1])
  }

  /** `effective_constraint`, given the entries of the classes that have one. */
  function Effective(legacy: Constraint, cs: seq<Constraint>): Constraint {
    if cs == [] then legacy else Overlay(legacy, Fold(cs))
  }

  predicate Sets(c: Constraint, k: Keyword) {
    match k
    case Enum => c.enumValues.Some?
    case Const => c.constValue.Some?
    case Type => c.types.Some?
    case PropertiesK => c.properties.Properties?
    case Required => c.required.Some?
    case AdditionalK => !c.additional.NoAdditional?
    case ItemsK => c.items.Items?
    case AnyOf => c.anyOf.Branches?
    case Minimum => c.minimum.Some?
    case Maximum => c.maximum.Some?
    case ExclusiveMinimum => c.exclusiveMinimum.Some?
    case ExclusiveMaximum => c.exclusiveMaximum.Some?
    case MinLength => c.minLength.Some?
    case MaxLength => c.maxLength.Some?
    case MinItems => c.minItems.Some?
    case MaxItems => c.maxItems.Some?
    case Pattern => c.pattern.Some?
    case Class => c.class_.Some?
  }

  lemma MergeableTighten(a: Constraint, b: Constraint, c: Constraint)
    requires Mergeable(a, b) && Mergeable(a, c) && Mergeable(b, c)
    ensures Mergeable(Tighten(a, b), c)
  {
  }

  lemma {:induction false} MergeableFold(cs: seq<Constraint>, c: Constraint)
    requires cs != [] && AllMergeable(cs) && forall x :: x in cs ==> Mergeable(x, c)
    ensures Mergeable(Fold(cs), c)
    decreases |cs|
  {
    hide Mergeable, Tighten;
    if |cs| > 1 {
      var n := |cs| - 1;
      assert cs == cs[..n] + [cs[n]];
      MergeableFold(cs[..n], c);
      MergeableFold(cs[..n], cs[n]);
      MergeableTighten(Fold(cs[..n]), cs[n], c);
    }
  }

  lemma TightenSets(a: Constraint, b: Constraint, k: Keyword)
    ensures Sets(Tighten(a, b), k) <==> Sets(a, k) || Sets(b, k)
  {
    hide Common;
  }

  lemma {:induction false} FoldKeyword(rx: Regex, cs: seq<Constraint>, k: Keyword, v: Json, top: bool)
    requires cs != [] && AllMergeable(cs)
    ensures Meets(rx, Fold(cs), k, v, top) <==> forall c :: c in cs ==> Meets(rx, c, k, v, top)
    ensures Sets(Fold(cs), k) <==> exists c :: c in cs && Sets(c, k)
    decreases |cs|
  {
    hide Mergeable, Tighten, Meets, Sets;
    if |cs| > 1 {
      var n := |cs| - 1;
      assert cs == cs[..n] + [cs[n]];
      FoldKeyword(rx, cs[..n], k, v, top);
      MergeableFold(cs[..n], cs[n]);
      TightenKeyword(rx, Fold(cs[..n]), cs[n], k, v, top);
      TightenSets(Fold(cs[..n]), cs[n], k);
    } else {
      assert cs == [cs[0]];
    }
  }

  /** What the legacy Property fields can say: an `enum`, a class, bounds and counts. */
  predicate LegacyShape(c: Constraint) {
    && c.constValue.None? && c.types.None? && c.required.None? && c.pattern.None?
    && c.items.NoItems? && c.anyOf.NoBranches? && NoObjectRules(c)
  }

  lemma OverlayKeyword(rx: Regex, under: Constraint, top: Constraint, k: Keyword, v: Json, whole: bool)
    requires LegacyShape(under)
    ensures Meets(rx, Overlay(under, top), k, v, whole)
            <==> if Sets(top, k) then Meets(rx, top, k, v, whole) else Meets(rx, under, k, v, whole)
  {
    hide Valid, InEnum;
  }

  /** What the effective constraint means, keyword by keyword: all classes' rules where some class has
      one, else the Property's own. Nothing in it depends on the order of the classes. */
  ghost predicate EffectiveMeaning(rx: Regex, legacy: Constraint, cs: seq<Constraint>, v: Json, top: bool) {
    forall k: Keyword :: KeywordMeaning(rx, legacy, cs, k, v, top)
  }

  ghost predicate KeywordMeaning(rx: Regex, legacy: Constraint, cs: seq<Constraint>, k: Keyword, v: Json, top: bool) {
    if exists c :: c in cs && Sets(c, k) then forall c :: c in cs ==> Meets(rx, c, k, v, top)
    else Meets(rx, legacy, k, v, top)
  }

  lemma EffectiveMeans(rx: Regex, legacy: Constraint, cs: seq<Constraint>, v: Json, top: bool)
    requires AllMergeable(cs) && LegacyShape(legacy)
    ensures Valid(rx, Effective(legacy, cs), v, top) <==> EffectiveMeaning(rx, legacy, cs, v, top)
  {
    hide Meets, KeywordMeaning, Effective;
    forall k: Keyword ensures Meets(rx, Effective(legacy, cs), k, v, top) <==> KeywordMeaning(rx, legacy, cs, k, v, top) {
      KeywordMeans(rx, legacy, cs, k, v, top);
    }
  }

  lemma KeywordMeans(rx: Regex, legacy: Constraint, cs: seq<Constraint>, k: Keyword, v: Json, top: bool)
    requires AllMergeable(cs) && LegacyShape(legacy)
    ensures Meets(rx, Effective(legacy, cs), k, v, top) <==> KeywordMeaning(rx, legacy, cs, k, v, top)
  {
    hide Meets, Sets, Overlay, LegacyShape, AllMergeable;
    if cs != [] {
      FoldKeyword(rx, cs, k, v, top);
      OverlayKeyword(rx, legacy, Fold(cs), k, v, top);
    }
  }

  /** The verdict of the effective constraint does not depend on the order or repetition of classes. */
  lemma ClassOrderIrrelevant(rx: Regex, legacy: Constraint, cs: seq<Constraint>, ds: seq<Constraint>, v: Json, top: bool)
    requires AllMergeable(cs) && LegacyShape(legacy)
    requires forall c :: c in cs <==> c in ds
    ensures Valid(rx, Effective(legacy, cs), v, top) <==> Valid(rx, Effective(legacy, ds), v, top)
  {
    hide Valid, Effective, Meets, Sets;
    EffectiveMeans(rx, legacy, cs, v, top);
    EffectiveMeans(rx, legacy, ds, v, top);
    forall k: Keyword ensures KeywordMeaning(rx, legacy, cs, k, v, top) <==> KeywordMeaning(rx, legacy, ds, k, v, top) {
      if exists c :: c in cs && Sets(c, k) { var c :| c in cs && Sets(c, k); assert c in ds; }
      if exists c :: c in ds && Sets(c, k) { var c :| c in ds && Sets(c, k); assert c in cs; }
    }
  }

  lemma TightenWellFormed(rx: Regex, a: Constraint, b: Constraint)
    requires WellFormed(rx, a, 0) && WellFormed(rx, b, 0)
    ensures WellFormed(rx, Tighten(a, b), 0)
  {
    hide Common;
  }

  lemma OverlayWellFormed(rx: Regex, under: Constraint, top: Constraint)
    requires WellFormed(rx, under, 0) && WellFormed(rx, top, 0)
    ensures WellFormed(rx, Overlay(under, top), 0)
  {
  }

  /** `effective_constraint`: classes that are missing, do not parse or have no entry are skipped. The
      result stays a constraint that `check_json` decides. */
  method EffectiveConstraint(rx: Regex, legacy: Constraint, entries: seq<Option<Constraint>>)
      returns (r: Constraint, ghost used: seq<Constraint>)
    requires WellFormed(rx, legacy, 0) && LegacyShape(legacy)
    requires forall i | 0 <= i < |entries| :: entries[i].Some? ==> WellFormed(rx, entries[i].value, 0)
    ensures r == Effective(legacy, used) && WellFormed(rx, r, 0)
    ensures forall c :: c in used <==> Some(c) in entries
    ensures AllMergeable(used) ==> forall v: Json, top: bool :: Valid(rx, r, v, top) <==> EffectiveMeaning(rx, legacy, used, v, top)
  {
    hide WellFormed, Tighten, Overlay, Valid, EffectiveMeaning, Mergeable, LegacyShape;
    var fromClasses: Option<Constraint> := None;
    used := [];
    var i := 0;
    while i < |entries|
      invariant 0 <= i <= |entries|
      invariant fromClasses == if used == [] then None else Some(Fold(used))
      invariant fromClasses.Some? ==> WellFormed(rx, fromClasses.value, 0)
      invariant forall c :: c in used <==> Some(c) in entries[..i]
    {
      if entries[i].Some? {
        var entry := entries[i].value;
        assert (used + [entry])[..|used|] == used;
        if fromClasses.Some? {
          TightenWellFormed(rx, fromClasses.value, entry);
          fromClasses := Some(Tighten(fromClasses.value, entry));
        } else {
          fromClasses := Some(entry);
        }
        used := used + [entry];
      }
      assert entries[..i + 1] == entries[..i] + [entries[i]];
      i := i + 1;
    }
    assert entries[..i] == entries;
    if fromClasses.Some? {
      OverlayWellFormed(rx, legacy, fromClasses.value);
      r := Overlay(legacy, fromClasses.value);
    } else {
      r := legacy;
    }
    if AllMergeable(used) {
      forall v: Json, top: bool ensures Valid(rx, r, v, top) <==> EffectiveMeaning(rx, legacy, used, v, top) {
        EffectiveMeans(rx, legacy, used, v, top);
      }
    }
  }
}
