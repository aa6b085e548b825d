/**
 Compiler correctness: what the assertions of `Define` say, for both code bases and
 over arbitrary constraint lists.
 */
module Correctness {
  import opened Wrappers
  import opened ScalarField
  import opened Schema
  import opened Values
  import opened Circuit
  import opened Compiler
  import opened DateAge

  /** One calendar age check: its seven assertions hold iff the date is not after the threshold date. */
  lemma CalendarAgeIsExact(lib: Library, fields: seq<FieldDef>, clock: Clock, c: Constraint, ints: map<string, int>)
    requires Names(fields) <= ints.Keys && IsCalendar(clock)
    requires c.kind == "age_verification" && Emit(Calendar, lib, fields, clock, c).Some?
    ensures Satisfies(WitnessFor(fields, ints), Emit(Calendar, lib, fields, clock, c).value)
            <==> Means(Field, Calendar, lib, fields, clock, c, ints)
  {
    hide Satisfies, Eval, InScope, LayoutOf, WitnessFor, FieldTerm, DateNotAfter, IsCalendar, Encode,
        DateAgeAssertions, NotAfter, Names;
    var l, w := LayoutOf(fields), WitnessFor(fields, ints);
    FieldTermReads(fields, ints, c.fields[0]);
    FieldTermReads(fields, ints, c.fields[1]);
    FieldTermReads(fields, ints, c.fields[2]);
    var minYear := Wrap64(clock.year - ValueAsInt(c, lib.numeral).value);
    hide Emit, EmitDateAge, ValueAsInt, Wrap64;
    DateAgeIsExact(w, FieldTerm(l, c.fields[0]).value, FieldTerm(l, c.fields[1]).value,
        FieldTerm(l, c.fields[2]).value, minYear, clock);
    NotAfterInTheField(ints[c.fields[0]], ints[c.fields[1]], ints[c.fields[2]], minYear, clock);
  }

  lemma NotAfterInTheField(y: int, m: int, d: int, year: int, clock: Clock)
    requires IsCalendar(clock)
    ensures DateNotAfter(Field, y, m, d, year, clock.month, clock.day) <==>
            1 <= Encode(m) <= 12 && 1 <= Encode(d) <= 31
            && NotAfter(Encode(y), Encode(m), Encode(d), Encode(year), clock.month, clock.day)
  {
  }

  /** A compiled age constraint accepts exactly the dates of birth with at least `minAge` completed years. */
  lemma DateAgeMeansCompletedYears(
      lib: Library, fields: seq<FieldDef>, clock: Clock, c: Constraint, ints: map<string, int>, minAge: int)
    requires Names(fields) <= ints.Keys && IsCalendar(clock)
    requires c.kind == "age_verification" && Emit(Calendar, lib, fields, clock, c).Some?
    requires ValueAsInt(c, lib.numeral) == Some(minAge) && 0 <= clock.year - minAge <= MAX_INT64
    requires forall k | 0 <= k < |c.fields| :: c.fields[k] in ints && 0 <= ints[c.fields[k]] < P
    ensures |c.fields| == 3
    ensures var y, m, d := ints[c.fields[0]], ints[c.fields[1]], ints[c.fields[2]];
            Satisfies(WitnessFor(fields, ints), Emit(Calendar, lib, fields, clock, c).value) <==>
            1 <= m <= 12 && 1 <= d <= 31 && CompletedYears(y, m, d, clock) >= minAge
  {
    CalendarAgeIsExact(lib, fields, clock, c, ints);
    hide Satisfies, WitnessFor, DateNotAfter, LayoutOf, ValueAsInt;
    NotAfterInTheField(ints[c.fields[0]], ints[c.fields[1]], ints[c.fields[2]], clock.year - minAge, clock);
  }

  /** One constraint: its assertions hold iff it holds on the encoded integers. */
  lemma ConstraintIsExact(
      d: Dialect, lib: Library, fields: seq<FieldDef>, clock: Clock, c: Constraint, ints: map<string, int>)
    requires Names(fields) <= ints.Keys && (d == Calendar ==> IsCalendar(clock))
    requires Emit(d, lib, fields, clock, c).Some?
    ensures Satisfies(WitnessFor(fields, ints), Emit(d, lib, fields, clock, c).value)
            <==> Means(Field, d, lib, fields, clock, c, ints)
  {
    hide *;
    if d == Calendar && c.kind == "age_verification" {
      CalendarAgeIsExact(lib, fields, clock, c, ints);
    } else {
      EmitIsExact(d, lib, fields, clock, c, ints);
    }
  }

  /** Every constraint holds. */
  predicate AllHold(
      o: Order, d: Dialect, lib: Library, fields: seq<FieldDef>, clock: Clock, cs: seq<Constraint>,
      ints: map<string, int>) {
    forall i | 0 <= i < |cs| :: Means(o, d, lib, fields, clock, cs[i], ints)
  }

  /**
   Compiler correctness: on any integers whatever, the circuit accepts the
   encoded integers iff every constraint holds in the field's reading.
   */
  lemma {:induction false} CompileIsExact(
      d: Dialect, lib: Library, fields: seq<FieldDef>, clock: Clock, cs: seq<Constraint>, ints: map<string, int>)
    requires Names(fields) <= ints.Keys && (d == Calendar ==> IsCalendar(clock))
    requires Compile(d, lib, fields, clock, cs).Some?
    ensures Satisfies(WitnessFor(fields, ints), Compile(d, lib, fields, clock, cs).value)
            <==> AllHold(Field, d, lib, fields, clock, cs, ints)
  {
    hide Emit, LayoutOf, WitnessFor, Satisfies, IsCalendar, Names, AllHold;
    var w := WitnessFor(fields, ints);
    if cs == [] {
      NothingHolds(lib, fields, clock, ints, w);
    } else {
      var n := |cs| - 1;
      CompileIsExact(d, lib, fields, clock, cs[..n], ints);
      ConstraintIsExact(d, lib, fields, clock, cs[n], ints);
      SatisfiesConcat(w, Compile(d, lib, fields, clock, cs[..n]).value, Emit(d, lib, fields, clock, cs[n]).value);
      AllHoldStep(Field, d, lib, fields, clock, cs, ints);
    }
  }

  lemma NothingHolds(lib: Library, fields: seq<FieldDef>, clock: Clock, ints: map<string, int>, w: Witness)
    ensures Satisfies(w, [])
    ensures forall o, d :: AllHold(o, d, lib, fields, clock, [], ints)
  {
  }

  lemma AllHoldStep(
      o: Order, d: Dialect, lib: Library, fields: seq<FieldDef>, clock: Clock, cs: seq<Constraint>,
      ints: map<string, int>)
    requires cs != []
    ensures AllHold(o, d, lib, fields, clock, cs, ints) <==>
            AllHold(o, d, lib, fields, clock, cs[..|cs| - 1], ints)
                && Means(o, d, lib, fields, clock, cs[|cs| - 1], ints)
  {
    hide Means;
    var n := |cs| - 1;
    if AllHold(o, d, lib, fields, clock, cs[..n], ints) && Means(o, d, lib, fields, clock, cs[n], ints) {
      forall i | 0 <= i < |cs| ensures Means(o, d, lib, fields, clock, cs[i], ints) {
        if i < n { assert cs[..n][i] == cs[i]; }
      }
    }
    if AllHold(o, d, lib, fields, clock, cs, ints) {
      forall i | 0 <= i < n ensures Means(o, d, lib, fields, clock, cs[..n][i], ints) { assert cs[..n][i] == cs[i]; }
    }
  }

  /** Two orders that decide every comparison of some integers alike. */
  predicate Agree(o: Order, xs: seq<int>) {
    forall i, j | 0 <= i < |xs| && 0 <= j < |xs| ::
      && (Le(Field, xs[i], xs[j]) <==> Le(o, xs[i], xs[j]))
      && (Lt(Field, xs[i], xs[j]) <==> Lt(o, xs[i], xs[j]))
      && (Same(Field, xs[i], xs[j]) <==> Same(o, xs[i], xs[j]))
  }

  /** Only the operands matter, together with the bounds of a calendar date. */
  lemma OperandsDecide(
      o: Order, d: Dialect, lib: Library, fields: seq<FieldDef>, clock: Clock, c: Constraint, ints: map<string, int>)
    requires Agree(o, Operands(d, lib, fields, clock, c, ints) + [1, 12, 31])
    ensures Means(Field, d, lib, fields, clock, c, ints) <==> Means(o, d, lib, fields, clock, c, ints)
  {
    hide Le, Lt, Same, ConstantOperand, Bounds, ParseOperator, ValueAsInt, Threshold;
    var ops := Operands(d, lib, fields, clock, c, ints);
    var xs := ops + [1, 12, 31];
    assert xs[|ops|] == 1 && xs[|ops| + 1] == 12 && xs[|ops| + 2] == 31;
    if |ops| > 0 { assert xs[0] == ops[0]; }
    if |ops| > 1 { assert xs[1] == ops[1]; }
    if |ops| > 2 { assert xs[2] == ops[2]; }
    if |ops| > 3 { assert xs[3] == ops[3] && xs[4] == ops[4] && xs[5] == ops[5]; }
  }

  /** On int64 operands the field reading is the signed closed form; on small non-negative ones, plain comparison. */
  lemma MeansAgree(d: Dialect, lib: Library, fields: seq<FieldDef>, clock: Clock, c: Constraint, ints: map<string, int>)
    ensures AllWithin(Operands(d, lib, fields, clock, c, ints), MIN_INT64, MAX_INT64) ==>
              (Means(Field, d, lib, fields, clock, c, ints) <==> Means(Signed, d, lib, fields, clock, c, ints))
    ensures AllWithin(Operands(d, lib, fields, clock, c, ints), 0, P - 2) ==>
              (Means(Field, d, lib, fields, clock, c, ints) <==> Means(Integer, d, lib, fields, clock, c, ints))
  {
    hide Means, Operands, Le, Lt, Same;
    var xs := Operands(d, lib, fields, clock, c, ints);
    var all := xs + [1, 12, 31];
    if AllWithin(xs, MIN_INT64, MAX_INT64) {
      forall i, j | 0 <= i < |all| && 0 <= j < |all| ensures IsInt64(all[i]) && IsInt64(all[j]) {}
      forall i, j | 0 <= i < |all| && 0 <= j < |all| { SignedOrderIsExact(all[i], all[j]); }
      OperandsDecide(Signed, d, lib, fields, clock, c, ints);
    }
    if AllWithin(xs, 0, P - 2) {
      forall i, j | 0 <= i < |all| && 0 <= j < |all| { IntegerOrderIsExact(all[i], all[j]); }
      OperandsDecide(Integer, d, lib, fields, clock, c, ints);
    }
  }

  /**
   With non-negative operands below P - 1, the circuit accepts iff every constraint holds on the
   integers themselves.
   */
  lemma CompilerCorrectOnNonNegative(
      d: Dialect, lib: Library, fields: seq<FieldDef>, clock: Clock, cs: seq<Constraint>, ints: map<string, int>)
    requires Names(fields) <= ints.Keys && (d == Calendar ==> IsCalendar(clock))
    requires Compile(d, lib, fields, clock, cs).Some?
    requires forall i | 0 <= i < |cs| :: AllWithin(Operands(d, lib, fields, clock, cs[i], ints), 0, P - 2)
    ensures Satisfies(WitnessFor(fields, ints), Compile(d, lib, fields, clock, cs).value)
            <==> AllHold(Integer, d, lib, fields, clock, cs, ints)
  {
    CompileIsExact(d, lib, fields, clock, cs, ints);
    forall i | 0 <= i < |cs|
      ensures Means(Field, d, lib, fields, clock, cs[i], ints) <==> Means(Integer, d, lib, fields, clock, cs[i], ints)
    {
      MeansAgree(d, lib, fields, clock, cs[i], ints);
    }
  }

  /** With int64 operands of either sign, the circuit accepts iff every constraint holds in the signed closed form. */
  lemma CompilerCorrectOnSigned(
      d: Dialect, lib: Library, fields: seq<FieldDef>, clock: Clock, cs: seq<Constraint>, ints: map<string, int>)
    requires Names(fields) <= ints.Keys && (d == Calendar ==> IsCalendar(clock))
    requires Compile(d, lib, fields, clock, cs).Some?
    requires forall i | 0 <= i < |cs| :: AllWithin(Operands(d, lib, fields, clock, cs[i], ints), MIN_INT64, MAX_INT64)
    ensures Satisfies(WitnessFor(fields, ints), Compile(d, lib, fields, clock, cs).value)
            <==> AllHold(Signed, d, lib, fields, clock, cs, ints)
  {
    CompileIsExact(d, lib, fields, clock, cs, ints);
    forall i | 0 <= i < |cs|
      ensures Means(Field, d, lib, fields, clock, cs[i], ints) <==> Means(Signed, d, lib, fields, clock, cs[i], ints)
    {
      MeansAgree(d, lib, fields, clock, cs[i], ints);
    }
  }

  /** The plainest order in which a constraint can be read on the given integers. */
  function Reading(
    d: Dialect, lib: Library, fields: seq<FieldDef>, clock: Clock, c: Constraint, ints: map<string, int>): Order
  {
    var ops := Operands(d, lib, fields, clock, c, ints);
    if AllWithin(ops, 0, P - 2) then Integer
    else if AllWithin(ops, MIN_INT64, MAX_INT64) then Signed
    else Field
  }

  /**
   Compiler correctness with no condition on the integers: the circuit accepts iff each
   constraint holds, as plain integers where its operands are non-negative and below
   P - 1, in the signed closed form on other int64 operands, and modulo P where a
   larger one occurs, such as the hash of a string.
   */
  lemma CompilerCorrect(
    d: Dialect, lib: Library, fields: seq<FieldDef>, clock: Clock, cs: seq<Constraint>, ints: map<string, int>)
    requires Names(fields) <= ints.Keys && (d == Calendar ==> IsCalendar(clock))
    requires Compile(d, lib, fields, clock, cs).Some?
    ensures Satisfies(WitnessFor(fields, ints), Compile(d, lib, fields, clock, cs).value)
            <==> forall i | 0 <= i < |cs| ::
                   Means(Reading(d, lib, fields, clock, cs[i], ints), d, lib, fields, clock, cs[i], ints)
  {
    CompileIsExact(d, lib, fields, clock, cs, ints);
    hide Means, Operands, AllWithin, Compile, Satisfies, WitnessFor;
    forall i | 0 <= i < |cs|
      ensures Means(Field, d, lib, fields, clock, cs[i], ints) <==>
              Means(Reading(d, lib, fields, clock, cs[i], ints), d, lib, fields, clock, cs[i], ints)
    {
      MeansAgree(d, lib, fields, clock, cs[i], ints);
    }
  }

  // ----- where the field departs from the integers -----

  /** The shape of values on which a compiled constraint says what it says of integers. */
  predicate SignsAgree(
      d: Dialect, lib: Library, fields: seq<FieldDef>, clock: Clock, c: Constraint, ints: map<string, int>)
    requires c.fields != [] && c.fields[0] in ints
  {
    var v := ints[c.fields[0]];
    if c.kind == "range_check" then
      match Bounds(c)
      case Some((lo, hi)) => SameSign(lo, hi) || (if lo < 0 then v < lo || hi < v else hi < v < lo)
      case None => true
    else if c.kind == "comparison" then
      match (ParseOperator(c.operator), RightOperand(d, lib, fields, c, ints))
      case (Some(GreaterEqual), Some(r)) => SameSign(r, v)
      case (Some(GreaterThan), Some(r)) => LtAgrees(r, v)
      case (Some(LessEqual), Some(r)) => SameSign(v, r)
      case (Some(LessThan), Some(r)) => LtAgrees(v, r)
      case _ => true
    else if c.kind == "age_verification" then
      match ValueAsInt(c, lib.numeral)
      case Some(years) =>
        if d == Timestamped then SameSign(v, Threshold(clock.unix, years))
        else if |c.fields| == 3 && c.fields[1] in ints && c.fields[2] in ints then
          var m, day := ints[c.fields[1]], ints[c.fields[2]];
          1 <= m <= 12 && 1 <= day <= 31 ==> SameSign(v, Wrap64(clock.year - years))
        else true
      case None => true
    else true
  }

  lemma RangeAgrees(lo: int, hi: int, v: int)
    requires IsInt64(lo) && IsInt64(hi) && IsInt64(v)
    ensures ((Le(Field, lo, v) && Le(Field, v, hi)) <==> (lo <= v <= hi)) <==>
            SameSign(lo, hi) || (if lo < 0 then v < lo || hi < v else hi < v < lo)
  {
    SignedOrderIsExact(lo, v);
    SignedOrderIsExact(v, hi);
    hide Encode;
  }

  lemma DateAgrees(y: int, m: int, d: int, year: int, month: int, day: int)
    requires IsInt64(y) && IsInt64(m) && IsInt64(d) && IsInt64(year) && 1 <= month <= 12 && 1 <= day <= 31
    ensures (DateNotAfter(Field, y, m, d, year, month, day) <==> DateNotAfter(Integer, y, m, d, year, month, day)) <==>
            (1 <= m <= 12 && 1 <= d <= 31 ==> SameSign(y, year))
  {
    IntegerReadingIsExact(1, m);
    IntegerReadingIsExact(m, 12);
    IntegerReadingIsExact(1, d);
    IntegerReadingIsExact(d, 31);
    IntegerReadingIsExact(y, year);
    IntegerReadingIsExact(m, month);
    IntegerReadingIsExact(d, day);
    SignedOrderIsExact(1, m);
    SignedOrderIsExact(m, 12);
    SignedOrderIsExact(1, d);
    SignedOrderIsExact(d, 31);
    hide Encode;
  }

  /** One constraint on int64 values means the same of field elements and of integers exactly when the signs agree. */
  lemma MeaningIsExact(
      d: Dialect, lib: Library, fields: seq<FieldDef>, clock: Clock, c: Constraint, ints: map<string, int>)
    requires c.fields != [] && c.fields[0] in ints && (d == Calendar ==> IsCalendar(clock))
    requires AllWithin(Operands(d, lib, fields, clock, c, ints), MIN_INT64, MAX_INT64)
    ensures (Means(Field, d, lib, fields, clock, c, ints) <==> Means(Integer, d, lib, fields, clock, c, ints)) <==>
            SignsAgree(d, lib, fields, clock, c, ints)
  {
    hide *;
    if c.kind == "range_check" { RangeMeaning(d, lib, fields, clock, c, ints); }
    else if c.kind == "comparison" { ComparisonMeaning(d, lib, fields, clock, c, ints); }
    else { AgeMeaning(d, lib, fields, clock, c, ints); }
  }

  lemma RangeMeaning(
      d: Dialect, lib: Library, fields: seq<FieldDef>, clock: Clock, c: Constraint, ints: map<string, int>)
    requires c.kind == "range_check"
    requires c.fields != [] && c.fields[0] in ints && (d == Calendar ==> IsCalendar(clock))
    requires AllWithin(Operands(d, lib, fields, clock, c, ints), MIN_INT64, MAX_INT64)
    ensures (Means(Field, d, lib, fields, clock, c, ints) <==> Means(Integer, d, lib, fields, clock, c, ints)) <==>
            SignsAgree(d, lib, fields, clock, c, ints)
  {
    hide Le, SameSign, Encode, Bounds;
    var ops, v := Operands(d, lib, fields, clock, c, ints), ints[c.fields[0]];
    if Bounds(c).Some? {
      var (lo, hi) := Bounds(c).value;
      assert ops[0] == v && ops[1] == lo && ops[2] == hi;
      RangeAgrees(lo, hi, v);
      IntegerLe(lo, v);
      IntegerLe(v, hi);
    }
  }

  lemma ComparisonMeaning(
      d: Dialect, lib: Library, fields: seq<FieldDef>, clock: Clock, c: Constraint, ints: map<string, int>)
    requires c.kind == "comparison"
    requires c.fields != [] && c.fields[0] in ints && (d == Calendar ==> IsCalendar(clock))
    requires AllWithin(Operands(d, lib, fields, clock, c, ints), MIN_INT64, MAX_INT64)
    ensures (Means(Field, d, lib, fields, clock, c, ints) <==> Means(Integer, d, lib, fields, clock, c, ints)) <==>
            SignsAgree(d, lib, fields, clock, c, ints)
  {
    hide Le, Lt, Same, SameSign, LtAgrees, RightOperand, ParseOperator;
    var ops, v := Operands(d, lib, fields, clock, c, ints), ints[c.fields[0]];
    if RightOperand(d, lib, fields, c, ints).Some? {
      var r := RightOperand(d, lib, fields, c, ints).value;
      assert ops[0] == v && ops[1] == r;
      IntegerReadingIsExact(v, r);
      IntegerReadingIsExact(r, v);
    }
  }

  lemma AgeMeaning(d: Dialect, lib: Library, fields: seq<FieldDef>, clock: Clock, c: Constraint, ints: map<string, int>)
    requires c.kind != "range_check" && c.kind != "comparison"
    requires c.fields != [] && c.fields[0] in ints && (d == Calendar ==> IsCalendar(clock))
    requires AllWithin(Operands(d, lib, fields, clock, c, ints), MIN_INT64, MAX_INT64)
    ensures (Means(Field, d, lib, fields, clock, c, ints) <==> Means(Integer, d, lib, fields, clock, c, ints)) <==>
            SignsAgree(d, lib, fields, clock, c, ints)
  {
    hide Le, Same, SameSign, DateNotAfter, Threshold, Wrap64, ValueAsInt;
    var ops, v := Operands(d, lib, fields, clock, c, ints), ints[c.fields[0]];
    if c.kind == "age_verification" && ValueAsInt(c, lib.numeral).Some? {
      var years := ValueAsInt(c, lib.numeral).value;
      assert ops[0] == v;
      if d == Timestamped {
        assert ops[1] == Threshold(clock.unix, years);
        IntegerReadingIsExact(v, Threshold(clock.unix, years));
      } else if |c.fields| == 3 && c.fields[1] in ints && c.fields[2] in ints {
        assert ops[1] == ints[c.fields[1]] && ops[2] == ints[c.fields[2]] && ops[3] == Wrap64(clock.year - years);
        DateAgrees(v, ints[c.fields[1]], ints[c.fields[2]], Wrap64(clock.year - years), clock.month, clock.day);
      }
    }
  }

  lemma IntegerLe(a: int, b: int)
    ensures Le(Integer, a, b) <==> a <= b
  {
  }

  /**
   The compiled form: a constraint's circuit accepts int64 values as the constraint does exactly
   when the signs agree.
   */
  lemma CircuitMeansConstraintIff(
    d: Dialect, lib: Library, fields: seq<FieldDef>, clock: Clock, c: Constraint, ints: map<string, int>)
    requires Names(fields) <= ints.Keys && (d == Calendar ==> IsCalendar(clock))
    requires c.fields != [] && c.fields[0] in ints && Emit(d, lib, fields, clock, c).Some?
    requires AllWithin(Operands(d, lib, fields, clock, c, ints), MIN_INT64, MAX_INT64)
    ensures (Satisfies(WitnessFor(fields, ints), Emit(d, lib, fields, clock, c).value) <==>
             Means(Integer, d, lib, fields, clock, c, ints))
            <==> SignsAgree(d, lib, fields, clock, c, ints)
  {
    hide *;
    ConstraintIsExact(d, lib, fields, clock, c, ints);
    MeaningIsExact(d, lib, fields, clock, c, ints);
  }

  /**
   A whole circuit on int64 values of any sign: when the signs agree in each constraint, it
   accepts as the constraints do.
   */
  lemma CompilerCorrectWhenSignsAgree(
    d: Dialect, lib: Library, fields: seq<FieldDef>, clock: Clock, cs: seq<Constraint>, ints: map<string, int>)
    requires Names(fields) <= ints.Keys && (d == Calendar ==> IsCalendar(clock))
    requires Compile(d, lib, fields, clock, cs).Some?
    requires forall i | 0 <= i < |cs| ::
               && cs[i].fields != [] && cs[i].fields[0] in ints
               && AllWithin(Operands(d, lib, fields, clock, cs[i], ints), MIN_INT64, MAX_INT64)
               && SignsAgree(d, lib, fields, clock, cs[i], ints)
    ensures Satisfies(WitnessFor(fields, ints), Compile(d, lib, fields, clock, cs).value)
            <==> AllHold(Integer, d, lib, fields, clock, cs, ints)
  {
    hide *;
    CompileIsExact(d, lib, fields, clock, cs, ints);
    forall i | 0 <= i < |cs|
      ensures Means(Field, d, lib, fields, clock, cs[i], ints) <==> Means(Integer, d, lib, fields, clock, cs[i], ints)
    {
      MeaningIsExact(d, lib, fields, clock, cs[i], ints);
    }
    AllHoldAlike(d, lib, fields, clock, cs, ints);
  }

  lemma AllHoldAlike(
      d: Dialect, lib: Library, fields: seq<FieldDef>, clock: Clock, cs: seq<Constraint>, ints: map<string, int>)
    requires forall i | 0 <= i < |cs| ::
               Means(Field, d, lib, fields, clock, cs[i], ints) <==> Means(Integer, d, lib, fields, clock, cs[i], ints)
    ensures AllHold(Field, d, lib, fields, clock, cs, ints) <==> AllHold(Integer, d, lib, fields, clock, cs, ints)
  {
    hide Means;
  }

  // ----- a range with a negative bound -----

  const TEMPERATURE: seq<FieldDef> := [FieldDef("x", "integer", true, true, false)]

  const MINUS_FIVE_TO_TEN: Constraint :=
    Constraint("range_check", ["x"], "between", Some(JArray([JNumber("-5", -5.0), JNumber("10", 10.0)])))

  /**
   The range from -5 to 10 is accepted by `prepare` and compiles, and its circuit accepts no
   int64 value, not even 3.
   */
  lemma RangeAcrossZeroAcceptsNothing(d: Dialect, lib: Library, clock: Clock, v: int)
    requires IsInt64(v) && (d == Calendar ==> IsCalendar(clock))
    ensures Prepared(TEMPERATURE, [MINUS_FIVE_TO_TEN]) && Names(TEMPERATURE) == {"x"}
    ensures Emit(d, lib, TEMPERATURE, clock, MINUS_FIVE_TO_TEN).Some?
    ensures !Satisfies(WitnessFor(TEMPERATURE, map["x" := v]),
        Emit(d, lib, TEMPERATURE, clock, MINUS_FIVE_TO_TEN).value)
    ensures Means(Integer, d, lib, TEMPERATURE, clock, MINUS_FIVE_TO_TEN, map["x" := v]) <==> -5 <= v <= 10
  {
    var fs, c := TEMPERATURE, MINUS_FIVE_TO_TEN;
    var ints := map["x" := v];
    assert fs[0].name == "x" && fs[0].name in Names(fs);
    assert Names(fs) == {"x"};
    NumberPair(JNumber("-5", -5.0), JNumber("10", 10.0));
    assert ToInt64(-5.0) == -5 && ToInt64(10.0) == 10;
    assert Bounds(c) == Some((-5, 10));
    LayoutCovers(fs);
    assert FieldTerm(LayoutOf(fs), "x").Some?;
    hide LayoutOf, FieldTerm, Satisfies, Bounds, Names;
    ConstraintIsExact(d, lib, fs, clock, c, ints);
    SignedOrderIsExact(-5, v);
    SignedOrderIsExact(v, 10);
    hide Encode, WitnessFor, Emit;
  }
}
