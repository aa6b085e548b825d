/**
 What a schema author writes and what the compiled circuit then demands, in plain
 terms: operator texts, numeric and string constants, and ranges.
 */
module Operators {
  import opened Wrappers
  import opened ScalarField
  import opened Schema
  import opened Values
  import opened Circuit
  import opened Compiler
  import opened DateAge
  import opened Correctness
  import opened Shapes

  /** The compiled constraint accepts the encoded integers. */
  ghost predicate Accepts(
    d: Dialect, lib: Library, fields: seq<FieldDef>, clock: Clock, c: Constraint, ints: map<string, int>)
    requires Names(fields) <= ints.Keys
  {
    var compiled := Emit(d, lib, fields, clock, c);
    compiled.Some? && Satisfies(WitnessFor(fields, ints), compiled.value)
  }

  /** The integer is one that neither the encoding nor adding one to it wraps. */
  predicate Small(z: int) { 0 <= z <= P - 2 }

  /** The fields exist and the integers cover them. */
  predicate Given(fields: seq<FieldDef>, c: Constraint, ints: map<string, int>) {
    && Names(fields) <= ints.Keys && c.fields != []
    && forall k | 0 <= k < |c.fields| :: c.fields[k] in Names(fields)
  }

  // ----- comparison -----

  lemma ComparisonDemands(
    d: Dialect, lib: Library, fields: seq<FieldDef>, clock: Clock, c: Constraint, ints: map<string, int>, r: int)
    requires Given(fields, c, ints) && c.kind == "comparison" && Emit(d, lib, fields, clock, c).Some?
    requires RightOperand(d, lib, fields, c, ints) == Some(r) && Small(ints[c.fields[0]]) && Small(r)
    ensures var v, accepts := ints[c.fields[0]], Accepts(d, lib, fields, clock, c, ints);
            && (c.operator == "greater_equal" || c.operator == "ge" ==> (accepts <==> v >= r))
            && (c.operator == "greater_than" || c.operator == "gt" ==> (accepts <==> v > r))
            && (c.operator == "less_equal" || c.operator == "le" ==> (accepts <==> v <= r))
            && (c.operator == "less_than" || c.operator == "lt" ==> (accepts <==> v < r))
            && (c.operator == "equal" || c.operator == "eq" ==> (accepts <==> v == r))
            && (c.operator == "not_equal" || c.operator == "ne" ==> (accepts <==> v != r))
  {
    hide Satisfies, WitnessFor, Emit, RightOperand;
    EmitIsExact(d, lib, fields, clock, c, ints);
    IntegerOrderIsExact(ints[c.fields[0]], r);
    IntegerOrderIsExact(r, ints[c.fields[0]]);
    hide Encode;
  }

  /**
   Two fields: each of the twelve operator texts compiles, in both code bases, to the
   comparison it names.  In blockchain-client a string field allows equality only.
   */
  lemma TwoFieldComparison(
    d: Dialect, lib: Library, fields: seq<FieldDef>, clock: Clock, c: Constraint, ints: map<string, int>)
    requires Given(fields, c, ints) && c.kind == "comparison" && |c.fields| > 1
    requires Emit(d, lib, fields, clock, c).Some?
    requires Small(ints[c.fields[0]]) && Small(ints[c.fields[1]])
    ensures var v, r, accepts := ints[c.fields[0]], ints[c.fields[1]], Accepts(d, lib, fields, clock, c, ints);
            && (c.operator == "greater_equal" || c.operator == "ge" ==> (accepts <==> v >= r))
            && (c.operator == "greater_than" || c.operator == "gt" ==> (accepts <==> v > r))
            && (c.operator == "less_equal" || c.operator == "le" ==> (accepts <==> v <= r))
            && (c.operator == "less_than" || c.operator == "lt" ==> (accepts <==> v < r))
            && (c.operator == "equal" || c.operator == "eq" ==> (accepts <==> v == r))
            && (c.operator == "not_equal" || c.operator == "ne" ==> (accepts <==> v != r))
  {
    hide Emit, Accepts;
    ComparisonDemands(d, lib, fields, clock, c, ints, ints[c.fields[1]]);
  }

  /** A field of the schema, by position. */
  predicate IsField(fields: seq<FieldDef>, i: nat, name: string) {
    DistinctNames(fields) && i < |fields| && fields[i].name == name
  }

  lemma FieldKind(fields: seq<FieldDef>, i: nat, name: string)
    requires IsField(fields, i, name)
    ensures name in ByName(fields) && ByName(fields)[name] == fields[i] && name in Names(fields)
  {
    ByNameFinds(fields, i);
    ByNameKeys(fields);
  }

  /**
   What a constant stands for beside a field of some type: pkg and the wallet read a
   number or hash a text, whatever the type, while blockchain-client goes by the type.
   */
  predicate ConstantIs(d: Dialect, lib: Library, kind: string, j: Json, r: int) {
    if d == Timestamped then
      match j
      case JNumber(_, f) => InRange(f) && Truncates(f, r)
      case JString(s) => r == lib.sha256(s)
      case JNull => r == lib.sha256("")
      case _ => false
    else if kind == "integer" || kind == "number" then
      match j
      case JNumber(_, f) => InRange(f) && Truncates(f, r)
      case JString(s) =>
        s != "" && lib.numeral(s).Some? && InRange(lib.numeral(s).value) && Truncates(lib.numeral(s).value, r)
      case _ => false
    else if kind == "boolean" then
      match j
      case JBool(b) => r == if b then 1 else 0
      case JString(s) => lib.boolean(s).Some? && r == if lib.boolean(s).value then 1 else 0
      case _ => false
    else if kind == "date" then j.JString? && lib.timestamp(j.s) == Some(r)
    else if kind == "string" then
      match j
      case JString(s) => r == lib.sha256(s) % P
      case JNumber(text, _) => r == lib.sha256(text) % P
      case _ => false
    else false
  }

  /**
   One field against a constant: each operator text compiles to the comparison it
   names, with what the constant stands for.
   */
  lemma ConstantComparison(
    d: Dialect, lib: Library, fields: seq<FieldDef>, clock: Clock, c: Constraint, ints: map<string, int>,
        i: nat, r: int)
    requires Given(fields, c, ints) && c.kind == "comparison" && |c.fields| == 1 && IsField(fields, i, c.fields[0])
    requires c.value.Some? && ConstantIs(d, lib, fields[i].kind, c.value.value, r)
    requires c.operator in (if d == Calendar && fields[i].kind == "string" then EQUALITIES else OPERATORS)
    requires Small(ints[c.fields[0]]) && Small(r)
    ensures var v, accepts := ints[c.fields[0]], Accepts(d, lib, fields, clock, c, ints);
            && (c.operator == "greater_equal" || c.operator == "ge" ==> (accepts <==> v >= r))
            && (c.operator == "greater_than" || c.operator == "gt" ==> (accepts <==> v > r))
            && (c.operator == "less_equal" || c.operator == "le" ==> (accepts <==> v <= r))
            && (c.operator == "less_than" || c.operator == "lt" ==> (accepts <==> v < r))
            && (c.operator == "equal" || c.operator == "eq" ==> (accepts <==> v == r))
            && (c.operator == "not_equal" || c.operator == "ne" ==> (accepts <==> v != r))
  {
    FieldKind(fields, i, c.fields[0]);
    ConstantIsOperand(d, lib, fields, c, ints, i, r);
    ConstantIsWellShaped(d, lib, fields, c, i, r);
    hide *;
    ConstraintCompiles(d, lib, fields, clock, c);
    ComparisonDemands(d, lib, fields, clock, c, ints, r);
  }

  lemma TruncatesOnce(f: real, z: int)
    requires InRange(f) && Truncates(f, z)
    ensures ToInt64(f) == z
  {
    ToInt64Truncates(f);
  }

  lemma ConstantIsWellShaped(d: Dialect, lib: Library, fields: seq<FieldDef>, c: Constraint, i: nat, r: int)
    requires |c.fields| == 1 && c.fields[0] in ByName(fields) && i < |fields|
        && ByName(fields)[c.fields[0]] == fields[i]
    requires c.kind == "comparison" && c.value.Some? && ConstantIs(d, lib, fields[i].kind, c.value.value, r)
    requires c.operator in (if d == Calendar && fields[i].kind == "string" then EQUALITIES else OPERATORS)
    ensures c.kind != "" && IsWellShaped(d, lib, fields, c)
  {
    hide ByName, Truncates, InRange, OPERATORS, EQUALITIES;
  }

  lemma ConstantIsOperand(
    d: Dialect, lib: Library, fields: seq<FieldDef>, c: Constraint, ints: map<string, int>, i: nat, r: int)
    requires |c.fields| == 1 && c.fields[0] in ByName(fields) && i < |fields|
        && ByName(fields)[c.fields[0]] == fields[i]
    requires c.value.Some? && ConstantIs(d, lib, fields[i].kind, c.value.value, r)
    ensures RightOperand(d, lib, fields, c, ints) == Some(r)
  {
    assert RightOperand(d, lib, fields, c, ints) == ConstantOperand(d, lib, fields, c);
    hide RightOperand, ByName;
    if d == Timestamped {
      if c.value.value.JNumber? { TruncatesOnce(c.value.value.number, r); }
    } else {
      assert ConstantOperand(d, lib, fields, c) ==
             match ConvertToVariable(Calendar, lib, fields[i].kind, RawOf(c.value.value))
             case Some(v) => Denote(lib, v)
             case None => None;
      hide ConstantOperand;
      CalendarConstant(lib, fields[i].kind, c.value.value, r);
    }
  }

  lemma CalendarConstant(lib: Library, kind: string, j: Json, r: int)
    requires ConstantIs(Calendar, lib, kind, j, r)
    ensures ConvertToVariable(Calendar, lib, kind, RawOf(j)) == Some(VInt(r))
  {
    if kind == "integer" || kind == "number" {
      match j
      case JNumber(_, f) => TruncatesOnce(f, r);
      case JString(s) => TruncatesOnce(lib.numeral(s).value, r);
    }
    hide ToInt64, Truncates, InRange;
  }

  lemma ConstraintCompiles(d: Dialect, lib: Library, fields: seq<FieldDef>, clock: Clock, c: Constraint)
    requires c.fields != [] && (forall k | 0 <= k < |c.fields| :: c.fields[k] in Names(fields)) && c.kind != ""
    requires c.fields[0] in ByName(fields) && IsWellShaped(d, lib, fields, c)
    ensures Emit(d, lib, fields, clock, c).Some?
  {
    hide IsWellShaped, Emit;
    EmitSucceedsIff(d, lib, fields, clock, c);
  }

  // ----- strings -----

  /** The integer is the hash of a text, along any of the three code paths. */
  predicate IsHashOf(d: Dialect, lib: Library, s: string, z: int) {
    if d == Calendar then ChainString(lib, s) == Some(z)
    else WalletString(lib, s) == Some(z) || PkgString(lib, s) == Some(z)
  }

  /** A string field against a string constant: equality holds iff the two hashes agree modulo P. */
  lemma StringComparison(
    d: Dialect, lib: Library, fields: seq<FieldDef>, clock: Clock, c: Constraint, ints: map<string, int>,
    i: nat, s: string, t: string)
    requires Given(fields, c, ints) && c.kind == "comparison" && |c.fields| == 1 && IsField(fields, i, c.fields[0])
    requires fields[i].kind == "string" && IsHashOf(d, lib, s, ints[c.fields[0]]) && c.value == Some(JString(t))
    requires c.operator in {"equal", "eq", "not_equal", "ne"}
    ensures var same := lib.sha256(s) % P == lib.sha256(t) % P;
            && (c.operator == "equal" || c.operator == "eq" ==> (Accepts(d, lib, fields, clock, c, ints) <==> same))
            && (c.operator == "not_equal" || c.operator == "ne"
                ==> (Accepts(d, lib, fields, clock, c, ints) <==> !same))
  {
    FieldKind(fields, i, c.fields[0]);
    HashIsHash(d, lib, s, ints[c.fields[0]]);
    StringOperand(d, lib, fields, c, ints, i, t);
    StringIsWellShaped(d, lib, fields, c, i, t);
    hide *;
    ConstraintCompiles(d, lib, fields, clock, c);
    EqualityDemands(d, lib, fields, clock, c, ints, RightOperand(d, lib, fields, c, ints).value);
  }

  lemma StringIsWellShaped(d: Dialect, lib: Library, fields: seq<FieldDef>, c: Constraint, i: nat, t: string)
    requires |c.fields| == 1 && c.fields[0] in ByName(fields) && i < |fields|
        && ByName(fields)[c.fields[0]] == fields[i]
    requires c.kind == "comparison" && fields[i].kind == "string" && c.value == Some(JString(t))
    requires c.operator in {"equal", "eq", "not_equal", "ne"}
    ensures c.kind != "" && IsWellShaped(d, lib, fields, c)
  {
    hide ByName;
  }

  /** Equality is equality modulo P. */
  lemma EqualityDemands(
    d: Dialect, lib: Library, fields: seq<FieldDef>, clock: Clock, c: Constraint, ints: map<string, int>, r: int)
    requires Given(fields, c, ints) && c.kind == "comparison" && Emit(d, lib, fields, clock, c).Some?
    requires RightOperand(d, lib, fields, c, ints) == Some(r)
    ensures var accepts := Accepts(d, lib, fields, clock, c, ints);
            var same := Encode(ints[c.fields[0]]) == Encode(r);
            && (c.operator == "equal" || c.operator == "eq" ==> (accepts <==> same))
            && (c.operator == "not_equal" || c.operator == "ne" ==> (accepts <==> !same))
  {
    hide Satisfies, WitnessFor, Emit, RightOperand, Encode;
    EmitIsExact(d, lib, fields, clock, c, ints);
  }

  lemma HashIsHash(d: Dialect, lib: Library, s: string, z: int)
    requires IsHashOf(d, lib, s, z)
    ensures Encode(z) == lib.sha256(s) % P
  {
    StringEncodingsAgree(lib, s, s);
    hide WalletString;
    assert PkgString(lib, s) == Some(lib.sha256(s));
  }

  lemma StringOperand(
    d: Dialect, lib: Library, fields: seq<FieldDef>, c: Constraint, ints: map<string, int>, i: nat, t: string)
    requires |c.fields| == 1 && c.fields[0] in ByName(fields) && i < |fields|
        && ByName(fields)[c.fields[0]] == fields[i]
    requires fields[i].kind == "string" && c.value == Some(JString(t))
    ensures RightOperand(d, lib, fields, c, ints).Some?
    ensures Encode(RightOperand(d, lib, fields, c, ints).value) == lib.sha256(t) % P
  {
    assert RightOperand(d, lib, fields, c, ints) == ConstantOperand(d, lib, fields, c);
    hide RightOperand, ByName;
    if d == Timestamped {
      assert ConstantOperand(d, lib, fields, c) == Some(lib.sha256(t));
    } else {
      ConstantText(lib, t);
      hide ConvertToVariable, Denote, Encode;
      assert ConstantOperand(d, lib, fields, c) == Some(lib.sha256(t) % P);
    }
    hide ConstantOperand;
    EncodeHash(lib.sha256(t));
  }

  lemma ConstantText(lib: Library, t: string)
    ensures ConvertToVariable(Calendar, lib, "string", RawOf(JString(t))) == Some(VInt(lib.sha256(t) % P))
    ensures Denote(lib, VInt(lib.sha256(t) % P)) == Some(lib.sha256(t) % P)
  {
  }

  lemma EncodeHash(n: nat)
    ensures Encode(n) == n % P && Encode(n % P) == n % P
  {
  }

  // ----- ranges -----

  /** A range of two whole numbers is accepted exactly between them, both included. */
  lemma RangeDemands(
    d: Dialect, lib: Library, fields: seq<FieldDef>, clock: Clock, c: Constraint, ints: map<string, int>,
    a: Json, b: Json, lo: int, hi: int)
    requires Given(fields, c, ints) && c.kind == "range_check" && |c.fields| == 1
    requires c.value == Some(JArray([a, b])) && a.JNumber? && b.JNumber?
    requires a.number == lo as real && b.number == hi as real && lo <= MAX_INT64 && hi <= MAX_INT64
    requires Small(lo) && Small(hi) && Small(ints[c.fields[0]])
    ensures Accepts(d, lib, fields, clock, c, ints) <==> lo <= ints[c.fields[0]] <= hi
  {
    ByNameKeys(fields);
    NumberPair(a, b);
    assert ToInt64(lo as real) == lo && ToInt64(hi as real) == hi;
    assert Bounds(c) == Some((lo, hi));
    BoundsAreWhole(c);
    hide Bounds, ByName, Names, IsRange;
    assert IsWellShaped(d, lib, fields, c);
    ConstraintCompiles(d, lib, fields, clock, c);
    hide IsWellShaped, Emit, Satisfies, WitnessFor;
    EmitIsExact(d, lib, fields, clock, c, ints);
    IntegerOrderIsExact(lo, ints[c.fields[0]]);
    IntegerOrderIsExact(ints[c.fields[0]], hi);
    hide Encode;
  }

  // ----- age -----

  /** A whole number of years is read as that number. */
  lemma YearsAreRead(lib: Library, c: Constraint, years: int)
    requires c.value.Some? && c.value.value.JNumber? && c.value.value.number == years as real && IsInt64(years)
    ensures ValueAsInt(c, lib.numeral) == Some(years)
  {
    assert ToInt64(years as real) == years;
  }
}
