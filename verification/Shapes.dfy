/**
 Which schemas compile: the shape every constraint must have, in each of the two
 compilers, and what that means for the two default schemas.
 */
module Shapes {
  import opened Wrappers
  import opened ScalarField
  import opened Schema
  import opened Values
  import opened Circuit
  import opened Compiler
  import opened DateAge
  import Decimal

  const OPERATORS: set<string> :=
    { "greater_equal", "ge", "greater_than", "gt", "less_equal", "le",
      "less_than", "lt", "equal", "eq", "not_equal", "ne" }

  const EQUALITIES: set<string> := { "equal", "eq", "not_equal", "ne" }

  predicate IsWhole(j: Json) { j.JNull? || (j.JNumber? && j.number.Floor as real == j.number) }

  /** Two whole numbers. */
  predicate IsRange(v: Option<Json>) {
    && v.Some? && v.value.JArray? && |v.value.items| == 2
    && IsWhole(v.value.items[0]) && IsWhole(v.value.items[1])
  }

  predicate IsNumber(lib: Library, v: Option<Json>) {
    && v.Some?
    && match v.value
       case JNumber(_, _) => true
       case JNull => true
       case JString(s) => lib.numeral(s).Some?
       case _ => false
  }

  /** Constants that blockchain-client accepts beside a field of some type. */
  predicate IsConstantOf(lib: Library, kind: string, j: Json) {
    if j.JNull? then false
    else if kind == "integer" || kind == "number" then j.JNumber? || (j.JString? && j.s != "" && lib.numeral(j.s).Some?)
    else if kind == "boolean" then j.JBool? || (j.JString? && lib.boolean(j.s).Some?)
    else if kind == "string" then j.JString? || j.JNumber?
    else if kind == "date" then
      if j.JString? then lib.timestamp(j.s).Some? || ParseBase0(lib, j.s).Some?
      else ParseBase0(lib, lib.sprint(RawOf(j))).Some?
    else j.JString? && ParseBase0(lib, j.s).Some?
  }

  /** The shape of a constraint that can be emitted. */
  predicate IsWellShaped(d: Dialect, lib: Library, fields: seq<FieldDef>, c: Constraint)
    requires c.fields != [] && c.fields[0] in ByName(fields)
  {
    var kind := ByName(fields)[c.fields[0]].kind;
    if c.kind == "range_check" then |c.fields| == 1 && IsRange(c.value)
    else if c.kind == "comparison" then
      && c.operator in (if d == Calendar && kind == "string" then EQUALITIES else OPERATORS)
      && (|c.fields| == 1 ==>
            && c.value.Some?
            && if d == Timestamped then c.value.value.JString? || c.value.value.JNull? || c.value.value.JNumber?
               else IsConstantOf(lib, kind, c.value.value))
    else if c.kind == "age_verification" then
      |c.fields| == (if d == Timestamped then 1 else 3) && IsNumber(lib, c.value)
    else false
  }

  lemma OperatorsAreKnown(op: string)
    ensures ParseOperator(op).Some? <==> op in OPERATORS
    ensures ParseOperator(op) in {Some(IsEqual), Some(NotEqual)} <==> op in EQUALITIES
  {
  }

  lemma BoundsAreWhole(c: Constraint)
    ensures Bounds(c).Some? <==> IsRange(c.value)
  {
    if c.value.Some? && c.value.value.JArray? {
      var items := c.value.value.items;
      NumberItemsLength(items);
      if |items| == 2 {
        assert items[1..][1..] == [] && items[1..][0] == items[1];
        assert NumberItems(items[1..][1..]) == Some([]);
        assert NumberItems(items[1..]).Some? <==> items[1].JNumber? || items[1].JNull?;
      }
    }
  }

  lemma {:induction false} NumberItemsLength(items: seq<Json>)
    ensures NumberItems(items).Some? ==> |NumberItems(items).value| == |items|
  {
    if items != [] { NumberItemsLength(items[1..]); }
  }

  lemma ConstantsAreTyped(lib: Library, fields: seq<FieldDef>, c: Constraint)
    requires c.fields != [] && c.fields[0] in ByName(fields) && c.value.Some?
    ensures ConstantOperand(Calendar, lib, fields, c).Some?
        <==> IsConstantOf(lib, ByName(fields)[c.fields[0]].kind, c.value.value)
  {
    hide ByName, ParseBase0;
  }

  lemma FieldsHaveTerms(fields: seq<FieldDef>, name: string)
    requires name in Names(fields)
    ensures name in ByName(fields) && FieldTerm(LayoutOf(fields), name).Some?
  {
    ByNameKeys(fields);
    LayoutCovers(fields);
  }

  predicate Placed(fields: seq<FieldDef>, c: Constraint) {
    && c.fields != []
    && forall k | 0 <= k < |c.fields| :: c.fields[k] in ByName(fields) && FieldTerm(LayoutOf(fields), c.fields[k]).Some?
  }

  lemma ComparisonShape(d: Dialect, lib: Library, fields: seq<FieldDef>, clock: Clock, c: Constraint)
    requires c.kind == "comparison" && Placed(fields, c)
    ensures Emit(d, lib, fields, clock, c).Some? <==> IsWellShaped(d, lib, fields, c)
  {
    OperatorsAreKnown(c.operator);
    if d == Calendar && c.value.Some? { ConstantsAreTyped(lib, fields, c); }
    hide LayoutOf, ByName, ParseOperator, FieldTerm, IsConstantOf, ConvertToVariable, Denote, Bounds, IsRange;
  }

  lemma OtherShape(d: Dialect, lib: Library, fields: seq<FieldDef>, clock: Clock, c: Constraint)
    requires c.kind != "comparison" && Placed(fields, c)
    ensures Emit(d, lib, fields, clock, c).Some? <==> IsWellShaped(d, lib, fields, c)
  {
    BoundsAreWhole(c);
    hide LayoutOf, ByName, FieldTerm, Bounds, IsRange, EmitComparisonConstraint, DateAgeAssertions;
  }

  /** A constraint of a prepared schema can be emitted, at any clock reading, exactly when it is well shaped. */
  lemma EmitSucceedsIff(d: Dialect, lib: Library, fields: seq<FieldDef>, clock: Clock, c: Constraint)
    requires ConstraintOk(c, Names(fields))
    ensures c.fields[0] in ByName(fields)
    ensures Emit(d, lib, fields, clock, c).Some? <==> IsWellShaped(d, lib, fields, c)
  {
    forall k | 0 <= k < |c.fields|
      ensures c.fields[k] in ByName(fields) && FieldTerm(LayoutOf(fields), c.fields[k]).Some?
    {
      FieldsHaveTerms(fields, c.fields[k]);
    }
    assert Placed(fields, c);
    hide *;
    if c.kind == "comparison" {
      ComparisonShape(d, lib, fields, clock, c);
    } else {
      OtherShape(d, lib, fields, clock, c);
    }
  }

  /** A prepared schema compiles, at any clock reading, exactly when all its constraints are well shaped. */
  lemma CompilesIff(d: Dialect, lib: Library, fields: seq<FieldDef>, clock: Clock, cs: seq<Constraint>)
    requires Prepared(fields, cs)
    ensures forall i | 0 <= i < |cs| :: cs[i].fields != [] && cs[i].fields[0] in ByName(fields)
    ensures Compile(d, lib, fields, clock, cs).Some? <==>
            forall i | 0 <= i < |cs| :: IsWellShaped(d, lib, fields, cs[i])
  {
    hide ByName, IsWellShaped, Emit, Names;
    CompileFailsIff(d, lib, fields, clock, cs);
    forall i | 0 <= i < |cs|
      ensures cs[i].fields != [] && cs[i].fields[0] in ByName(fields)
      ensures Emit(d, lib, fields, clock, cs[i]).Some? <==> IsWellShaped(d, lib, fields, cs[i])
    {
      assert ConstraintOk(cs[i], Names(fields));
      EmitSucceedsIff(d, lib, fields, clock, cs[i]);
    }
  }

  // ----- pkg's default schema -----

  const PKG_DEFAULT_FIELDS: seq<FieldDef> :=
    DEFAULT_AGE_FIELDS +
    [ FieldDef("current_year", "integer", true, false, true),
      FieldDef("current_month", "integer", true, false, true),
      FieldDef("current_day", "integer", true, false, true),
      FieldDef("aud", "string", true, false, true),
      FieldDef("nonce", "string", true, false, true) ]

  /** `prepare` accepts pkg's default schema, blockchain-client compiles it, and pkg itself never does. */
  lemma PkgDefaultDoesNotCompileInPkg(lib: Library, clock: Clock)
    ensures Prepared(PKG_DEFAULT_FIELDS, DEFAULT_AGE_CONSTRAINTS)
    ensures Compile(Timestamped, lib, PKG_DEFAULT_FIELDS, clock, DEFAULT_AGE_CONSTRAINTS) == None
    ensures Compile(Calendar, lib, PKG_DEFAULT_FIELDS, clock, DEFAULT_AGE_CONSTRAINTS).Some?
  {
    var fs, cs := PKG_DEFAULT_FIELDS, DEFAULT_AGE_CONSTRAINTS;
    PkgDefaultIsPrepared();
    hide ByName, Compile, Prepared, Names;
    CompilesIff(Timestamped, lib, fs, clock, cs);
    CompilesIff(Calendar, lib, fs, clock, cs);
    assert !IsWellShaped(Timestamped, lib, fs, cs[0]);
    assert IsWellShaped(Calendar, lib, fs, cs[0]) && IsWellShaped(Calendar, lib, fs, cs[1])
        && IsWellShaped(Calendar, lib, fs, cs[2]);
  }

  lemma PkgDefaultIsPrepared()
    ensures Prepared(PKG_DEFAULT_FIELDS, DEFAULT_AGE_CONSTRAINTS)
  {
    var fs := PKG_DEFAULT_FIELDS;
    assert fs[0].name in Names(fs) && fs[1].name in Names(fs) && fs[2].name in Names(fs);
    assert |fs[0].name| == 10 && |fs[1].name| == 11 && |fs[2].name| == 9 && |fs[3].name| == 12 && |fs[4].name| == 13
        && |fs[5].name| == 11 && |fs[6].name| == 3 && |fs[7].name| == 5;
    assert fs[1].name[0] == 'b' && fs[5].name[0] == 'c';
  }
}
