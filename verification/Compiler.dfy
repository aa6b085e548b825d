/**
 `Define`: the compilation of a schema's constraints to field assertions, and
 the proof that the assertions mean what the constraints say.
 */
module Compiler {
  import opened Wrappers
  import opened ScalarField
  import opened Schema
  import opened Values
  import opened Circuit

  /** One reading of `time.Now()`: Unix seconds and the calendar date. */
  datatype Clock = Clock(unix: int, year: int, month: int, day: int)

  /** 365 days. */
  const SECONDS_PER_YEAR: int := 31_536_000

  datatype Comparison = GreaterEqual | GreaterThan | LessEqual | LessThan | IsEqual | NotEqual

  function ParseOperator(op: string): Option<Comparison> {
    if op == "greater_equal" || op == "ge" then Some(GreaterEqual)
    else if op == "greater_than" || op == "gt" then Some(GreaterThan)
    else if op == "less_equal" || op == "le" then Some(LessEqual)
    else if op == "less_than" || op == "lt" then Some(LessThan)
    else if op == "equal" || op == "eq" then Some(IsEqual)
    else if op == "not_equal" || op == "ne" then Some(NotEqual)
    else None
  }

  // ----- emission -----

  /** `fieldVariable` while the circuit is being compiled. */
  function FieldTerm(l: Layout, name: string): Option<Term> {
    if name in l.secretIndex then Some(Secret(l.secretIndex[name]))
    else if name in l.publicIndex then Some(Public(l.publicIndex[name]))
    else None
  }

  function Constant(z: int): Term { Const(Encode(z)) }

  function EmitComparison(op: Comparison, left: Term, right: Term): Assertion {
    match op
    case GreaterEqual => LessOrEqual(right, left)
    case GreaterThan => LessOrEqual(Add(right, Constant(1)), left)
    case LessEqual => LessOrEqual(left, right)
    case LessThan => LessOrEqual(Add(left, Constant(1)), right)
    case IsEqual => Equal(left, right)
    case NotEqual => Different(left, right)
  }

  function EmitRange(l: Layout, c: Constraint): Option<seq<Assertion>> {
    if |c.fields| != 1 then None else
    var (lo, hi) :- Bounds(c);
    var v :- FieldTerm(l, c.fields[0]);
    Some([LessOrEqual(Constant(lo), v), LessOrEqual(v, Constant(hi))])
  }

  /** How `encoding/json` with `UseNumber` hands a JSON value to Go. */
  function RawOf(j: Json): Raw {
    match j
    case JNull => RNil
    case JBool(b) => RBool(b)
    case JNumber(text, r) => RNumber(text, r)
    case JString(s) => RStr(s)
    case _ => ROther(j)
  }

  /** The integer a one-field comparison compares with. */
  function ConstantOperand(d: Dialect, lib: Library, fields: seq<FieldDef>, c: Constraint): Option<int>
    requires c.fields != []
  {
    match d
    case Timestamped =>
      (match c.value
       case Some(JString(s)) => Some(lib.sha256(s))
       case Some(JNull) => Some(lib.sha256(""))
       case _ => ValueAsInt(c, lib.numeral))
    case Calendar =>
      if c.fields[0] !in ByName(fields) then None else
      var j :- c.value;
      var v :- ConvertToVariable(Calendar, lib, ByName(fields)[c.fields[0]].kind, RawOf(j));
      Denote(lib, v)
  }

  function EmitComparisonConstraint(
      d: Dialect, lib: Library, fields: seq<FieldDef>, c: Constraint): Option<seq<Assertion>> {
    var l := LayoutOf(fields);
    if |c.fields| == 0 then None
    else if d == Calendar && c.fields[0] !in ByName(fields) then None
    else if d == Calendar && ByName(fields)[c.fields[0]].kind == "string"
            && ParseOperator(c.operator) !in {Some(IsEqual), Some(NotEqual)} then None
    else
      var left :- FieldTerm(l, c.fields[0]);
      if |c.fields| > 1 then
        var right :- FieldTerm(l, c.fields[1]);
        var op :- ParseOperator(c.operator);
        Some([EmitComparison(op, left, right)])
      else
        var z :- ConstantOperand(d, lib, fields, c);
        var op :- ParseOperator(c.operator);
        Some([EmitComparison(op, left, Constant(z))])
  }

  /** The latest birth timestamp the 365-day rule admits, in int64 arithmetic. */
  function Threshold(unix: int, years: int): int {
    Wrap64(unix - Wrap64(years * SECONDS_PER_YEAR))
  }

  function EmitTimestampAge(lib: Library, l: Layout, clock: Clock, c: Constraint): Option<seq<Assertion>> {
    if |c.fields| != 1 then None else
    var years :- ValueAsInt(c, lib.numeral);
    var v :- FieldTerm(l, c.fields[0]);
    Some([LessOrEqual(v, Constant(Threshold(clock.unix, years)))])
  }

  /** The seven assertions of the calendar age check. */
  function DateAgeAssertions(y: Term, m: Term, d: Term, minYear: int, month: int, day: int): seq<Assertion> {
    var yearIsMin := IsZero(Sub(y, Constant(minYear)));
    var monthIsCurrent := IsZero(Sub(m, Constant(month)));
    [ LessOrEqual(y, Constant(minYear)),
      LessOrEqual(Constant(1), m),
      LessOrEqual(m, Constant(12)),
      LessOrEqual(m, Select(yearIsMin, Constant(month), Constant(12))),
      LessOrEqual(Constant(1), d),
      LessOrEqual(d, Constant(31)),
      LessOrEqual(d, Select(And(yearIsMin, monthIsCurrent), Constant(day), Constant(31))) ]
  }

  function EmitDateAge(lib: Library, l: Layout, clock: Clock, c: Constraint): Option<seq<Assertion>> {
    if |c.fields| != 3 then None else
    var minAge :- ValueAsInt(c, lib.numeral);
    var y :- FieldTerm(l, c.fields[0]);
    var m :- FieldTerm(l, c.fields[1]);
    var d :- FieldTerm(l, c.fields[2]);
    Some(DateAgeAssertions(y, m, d, Wrap64(clock.year - minAge), clock.month, clock.day))
  }

  /** `applyConstraint`. */
  function Emit(d: Dialect, lib: Library, fields: seq<FieldDef>, clock: Clock, c: Constraint): Option<seq<Assertion>> {
    if c.kind == "range_check" then EmitRange(LayoutOf(fields), c)
    else if c.kind == "comparison" then EmitComparisonConstraint(d, lib, fields, c)
    else if c.kind == "age_verification" then
      if d == Timestamped then EmitTimestampAge(lib, LayoutOf(fields), clock, c)
      else EmitDateAge(lib, LayoutOf(fields), clock, c)
    else None
  }

  function Compile(
      d: Dialect, lib: Library, fields: seq<FieldDef>, clock: Clock, cs: seq<Constraint>): Option<seq<Assertion>> {
    if cs == [] then Some([])
    else
      var n := |cs| - 1;
      var before :- Compile(d, lib, fields, clock, cs[..n]);
      var last :- Emit(d, lib, fields, clock, cs[n]);
      Some(before + last)
  }

  method Define(d: Dialect, lib: Library, fields: seq<FieldDef>, clock: Clock, cs: seq<Constraint>)
    returns (circuit: Option<seq<Assertion>>)
    ensures circuit == Compile(d, lib, fields, clock, cs)
  {
    hide Emit;
    var emitted := [];
    for i := 0 to |cs|
      invariant Compile(d, lib, fields, clock, cs[..i]) == Some(emitted)
    {
      assert cs[..i + 1][..i] == cs[..i];
      var step := Emit(d, lib, fields, clock, cs[i]);
      if step == None {
        CompileStopsAtError(d, lib, fields, clock, cs, i + 1);
        return None;
      }
      emitted := emitted + step.value;
    }
    assert cs[..|cs|] == cs;
    return Some(emitted);
  }

  lemma {:induction false} CompileStopsAtError(
      d: Dialect, lib: Library, fields: seq<FieldDef>, clock: Clock, cs: seq<Constraint>, i: nat)
    requires i <= |cs| && Compile(d, lib, fields, clock, cs[..i]) == None
    ensures Compile(d, lib, fields, clock, cs) == None
  {
    hide Emit;
    if i < |cs| {
      var n := |cs| - 1;
      assert cs[..n][..i] == cs[..i];
      CompileStopsAtError(d, lib, fields, clock, cs[..n], i);
    } else {
      assert cs[..i] == cs;
    }
  }

  /** Compilation fails exactly when some constraint cannot be emitted. */
  lemma {:induction false} CompileFailsIff(
      d: Dialect, lib: Library, fields: seq<FieldDef>, clock: Clock, cs: seq<Constraint>)
    ensures Compile(d, lib, fields, clock, cs) == None <==>
            exists i :: 0 <= i < |cs| && Emit(d, lib, fields, clock, cs[i]) == None
  {
    hide Emit;
    if cs != [] {
      var n := |cs| - 1;
      CompileFailsIff(d, lib, fields, clock, cs[..n]);
      assert forall i | 0 <= i < n :: cs[..n][i] == cs[i];
      if Compile(d, lib, fields, clock, cs[..n]) == None {
        var i :| 0 <= i < n && Emit(d, lib, fields, clock, cs[..n][i]) == None;
        assert Emit(d, lib, fields, clock, cs[i]) == None;
      }
    }
  }

  // ----- meaning -----

  predicate Compare(o: Order, op: Comparison, l: int, r: int) {
    match op
    case GreaterEqual => Le(o, r, l)
    case GreaterThan => Lt(o, r, l)
    case LessEqual => Le(o, l, r)
    case LessThan => Lt(o, l, r)
    case IsEqual => Same(o, l, r)
    case NotEqual => !Same(o, l, r)
  }

  /** The second operand of a comparison. */
  function RightOperand(
      d: Dialect, lib: Library, fields: seq<FieldDef>, c: Constraint, ints: map<string, int>): Option<int>
    requires c.fields != []
  {
    if |c.fields| > 1 then if c.fields[1] in ints then Some(ints[c.fields[1]]) else None
    else ConstantOperand(d, lib, fields, c)
  }

  /** A month and a day in range, and a date not after (year, month, day), in an order's reading. */
  predicate DateNotAfter(o: Order, y: int, m: int, d: int, year: int, month: int, day: int) {
    && Le(o, 1, m) && Le(o, m, 12) && Le(o, 1, d) && Le(o, d, 31)
    && Le(o, y, year)
    && (Same(o, y, year) ==> Le(o, m, month))
    && (Same(o, y, year) && Same(o, m, month) ==> Le(o, d, day))
  }

  /** The constraint, read on the integers the fields hold. */
  predicate Means(
      o: Order, d: Dialect, lib: Library, fields: seq<FieldDef>, clock: Clock, c: Constraint,
      ints: map<string, int>) {
    && c.fields != []
    && c.fields[0] in ints
    && var v := ints[c.fields[0]];
       if c.kind == "range_check" then
         (match Bounds(c)
          case Some((lo, hi)) => Le(o, lo, v) && Le(o, v, hi)
          case None => false)
       else if c.kind == "comparison" then
         (match (ParseOperator(c.operator), RightOperand(d, lib, fields, c, ints))
          case (Some(op), Some(r)) => Compare(o, op, v, r)
          case _ => false)
       else if c.kind == "age_verification" then
         (match ValueAsInt(c, lib.numeral)
          case Some(years) =>
            if d == Timestamped then Le(o, v, Threshold(clock.unix, years))
            else
              && |c.fields| == 3 && c.fields[1] in ints && c.fields[2] in ints
              && var m, day := ints[c.fields[1]], ints[c.fields[2]];
                 DateNotAfter(o, v, m, day, Wrap64(clock.year - years), clock.month, clock.day)
          case None => false)
       else false
  }

  /** The integers a constraint compares. */
  function Operands(
      d: Dialect, lib: Library, fields: seq<FieldDef>, clock: Clock, c: Constraint,
      ints: map<string, int>): seq<int> {
    if c.fields == [] || c.fields[0] !in ints then []
    else
      [ints[c.fields[0]]] +
      if c.kind == "range_check" then
        (match Bounds(c) case Some((lo, hi)) => [lo, hi] case None => [])
      else if c.kind == "comparison" then
        (match RightOperand(d, lib, fields, c, ints) case Some(r) => [r] case None => [])
      else
        (match ValueAsInt(c, lib.numeral)
         case Some(years) =>
           if d == Timestamped then [Threshold(clock.unix, years)]
           else if |c.fields| == 3 && c.fields[1] in ints && c.fields[2] in ints then
             [ints[c.fields[1]], ints[c.fields[2]], Wrap64(clock.year - years), clock.month, clock.day]
           else []
         case None => [])
  }

  predicate AllWithin(xs: seq<int>, lo: int, hi: int) {
    forall i | 0 <= i < |xs| :: lo <= xs[i] <= hi
  }

  /** The witness in which every field's slot holds the encoding of its integer. */
  function WitnessFor(fields: seq<FieldDef>, ints: map<string, int>): Witness
    requires Names(fields) <= ints.Keys
  {
    LayoutWithin(fields, ints);
    var l := LayoutOf(fields);
    Witness(Encoded(l.secretOrder, ints), Encoded(l.publicOrder, ints))
  }

  function Encoded(order: seq<string>, ints: map<string, int>): (slots: seq<Element>)
    requires forall x | x in order :: x in ints
    ensures |slots| == |order| && forall i | 0 <= i < |order| :: slots[i] == Encode(ints[order[i]])
  {
    seq(|order|, i requires 0 <= i < |order| => assert order[i] in order; Encode(ints[order[i]]))
  }

  lemma LayoutWithin(fields: seq<FieldDef>, ints: map<string, int>)
    requires Names(fields) <= ints.Keys
    ensures (set x | x in LayoutOf(fields).secretOrder) <= ints.Keys
    ensures (set x | x in LayoutOf(fields).publicOrder) <= ints.Keys
  {
    FieldOrderListsVisibility(fields, false);
    FieldOrderListsVisibility(fields, true);
  }

  /** A field's term evaluates to the encoding of the field's integer. */
  lemma FieldTermReads(fields: seq<FieldDef>, ints: map<string, int>, name: string)
    requires Names(fields) <= ints.Keys && FieldTerm(LayoutOf(fields), name).Some?
    ensures name in ints
    ensures var w := WitnessFor(fields, ints);
            var t := FieldTerm(LayoutOf(fields), name).value;
            InScope(t, w) && Eval(t, w) == Encode(ints[name])
  {
    LayoutWithin(fields, ints);
    IndexPointsBack(LayoutOf(fields).secretOrder, name);
    IndexPointsBack(LayoutOf(fields).publicOrder, name);
  }

  lemma SatisfiesOne(w: Witness, a: Assertion)
    ensures Satisfies(w, [a]) <==> Holds(a, w)
  {
    if Satisfies(w, [a]) { assert Holds([a][0], w); }
  }

  lemma SatisfiesTwo(w: Witness, a: Assertion, b: Assertion)
    ensures Satisfies(w, [a, b]) <==> Holds(a, w) && Holds(b, w)
  {
    assert [a, b] == [a] + [b];
    SatisfiesConcat(w, [a], [b]);
    SatisfiesOne(w, a);
    SatisfiesOne(w, b);
  }

  lemma ConstantIsEncoded(w: Witness, z: int)
    ensures InScope(Constant(z), w) && Eval(Constant(z), w) == Encode(z)
  {
  }

  lemma ComparisonIsExact(w: Witness, op: Comparison, lt: Term, rt: Term, l: int, r: int)
    requires InScope(lt, w) && InScope(rt, w) && Eval(lt, w) == Encode(l) && Eval(rt, w) == Encode(r)
    ensures Holds(EmitComparison(op, lt, rt), w) <==> Compare(Field, op, l, r)
  {
    assert InScope(Constant(1), w) && Eval(Constant(1), w) == Encode(1);
    assert Eval(Add(rt, Constant(1)), w) == (Encode(r) + Encode(1)) % P;
    assert Eval(Add(lt, Constant(1)), w) == (Encode(l) + Encode(1)) % P;
  }

  /** One constraint other than a calendar age check: its assertions hold iff it holds on the encoded integers. */
  lemma EmitIsExact(
      d: Dialect, lib: Library, fields: seq<FieldDef>, clock: Clock, c: Constraint, ints: map<string, int>)
    requires Names(fields) <= ints.Keys
    requires d == Timestamped || c.kind != "age_verification"
    requires Emit(d, lib, fields, clock, c).Some?
    ensures Satisfies(WitnessFor(fields, ints), Emit(d, lib, fields, clock, c).value)
            <==> Means(Field, d, lib, fields, clock, c, ints)
  {
    hide LayoutOf, WitnessFor, ConstantOperand, Eval, InScope, ByName, ParseOperator;
    LayoutWithin(fields, ints);
    var w := WitnessFor(fields, ints);
    var out := Emit(d, lib, fields, clock, c).value;
    FieldTermReads(fields, ints, c.fields[0]);
    if c.kind == "range_check" {
      var (lo, hi) := Bounds(c).value;
      ConstantIsEncoded(w, lo);
      ConstantIsEncoded(w, hi);
      SatisfiesTwo(w, out[0], out[1]);
    } else {
      SatisfiesOne(w, out[0]);
      assert out == [out[0]];
      if c.kind == "age_verification" {
        ConstantIsEncoded(w, Threshold(clock.unix, ValueAsInt(c, lib.numeral).value));
      } else {
        var l := FieldTerm(LayoutOf(fields), c.fields[0]).value;
        var op := ParseOperator(c.operator).value;
        if |c.fields| > 1 {
          FieldTermReads(fields, ints, c.fields[1]);
          var r := FieldTerm(LayoutOf(fields), c.fields[1]).value;
          ComparisonIsExact(w, op, l, r, ints[c.fields[0]], ints[c.fields[1]]);
        } else {
          var z := ConstantOperand(d, lib, fields, c).value;
          ConstantIsEncoded(w, z);
          ComparisonIsExact(w, op, l, Constant(z), ints[c.fields[0]], z);
        }
      }
    }
  }

  // ----- prover and verifier -----

  predicate HasAge(cs: seq<Constraint>) {
    exists i :: 0 <= i < |cs| && cs[i].kind == "age_verification"
  }

  lemma WrapInjective(u: int, v: int, a: int)
    requires IsInt64(u) && IsInt64(v)
    ensures Wrap64(u - a) == Wrap64(v - a) ==> u == v
  {
    var m := 0x1_0000_0000_0000_0000;
    var x, y := u - a + 0x8000_0000_0000_0000, v - a + 0x8000_0000_0000_0000;
    assert x == m * (x / m) + x % m && y == m * (y / m) + y % m;
  }

  lemma ThresholdInjective(u: int, v: int, years: int)
    requires IsInt64(u) && IsInt64(v)
    ensures Encode(Threshold(u, years)) == Encode(Threshold(v, years)) <==> u == v
  {
    WrapInjective(u, v, Wrap64(years * SECONDS_PER_YEAR));
    hide Wrap64;
  }

  lemma EmitClock(lib: Library, fields: seq<FieldDef>, c: Constraint, k1: Clock, k2: Clock)
    requires IsInt64(k1.unix) && IsInt64(k2.unix)
    ensures var e1, e2 := Emit(Timestamped, lib, fields, k1, c), Emit(Timestamped, lib, fields, k2, c);
            && e1.Some? == e2.Some?
            && (e1.Some? ==> |e1.value| == |e2.value|)
            && (e1.Some? ==> (e1 == e2 <==> c.kind != "age_verification" || k1.unix == k2.unix))
  {
    var e1, e2 := Emit(Timestamped, lib, fields, k1, c), Emit(Timestamped, lib, fields, k2, c);
    if c.kind == "age_verification" && e1.Some? {
      var years := ValueAsInt(c, lib.numeral).value;
      ThresholdInjective(k1.unix, k2.unix, years);
      assert e1.value[0].right == Constant(Threshold(k1.unix, years));
      assert e2.value[0].right == Constant(Threshold(k2.unix, years));
    }
  }

  /**
   The wallet and pkg run the same compiler at different times.  They build the
   same assertion list exactly when no constraint is an age constraint or both
   clocks show the same second.
   */
  lemma {:induction false} SameCircuitIff(
      lib: Library, fields: seq<FieldDef>, cs: seq<Constraint>, prover: Clock, verifier: Clock)
    requires IsInt64(prover.unix) && IsInt64(verifier.unix)
    ensures var p, v := Compile(Timestamped, lib, fields, prover, cs), Compile(Timestamped, lib, fields, verifier, cs);
            && p.Some? == v.Some?
            && (p.Some? ==> |p.value| == |v.value|)
            && (p.Some? ==> (p == v <==> !HasAge(cs) || prover.unix == verifier.unix))
  {
    if cs != [] {
      var n := |cs| - 1;
      SameCircuitIff(lib, fields, cs[..n], prover, verifier);
      EmitClock(lib, fields, cs[n], prover, verifier);
      var p, v := Compile(Timestamped, lib, fields, prover, cs), Compile(Timestamped, lib, fields, verifier, cs);
      if p.Some? {
        SplitConcat(Compile(Timestamped, lib, fields, prover, cs[..n]).value,
            Emit(Timestamped, lib, fields, prover, cs[n]).value,
                    Compile(Timestamped, lib, fields, verifier, cs[..n]).value,
                        Emit(Timestamped, lib, fields, verifier, cs[n]).value);
      }
      HasAgeStep(cs);
    }
  }

  lemma HasAgeStep(cs: seq<Constraint>)
    requires cs != []
    ensures HasAge(cs) <==> HasAge(cs[..|cs| - 1]) || cs[|cs| - 1].kind == "age_verification"
  {
    var n := |cs| - 1;
    if HasAge(cs) {
      var i :| 0 <= i < |cs| && cs[i].kind == "age_verification";
      if i < n { assert cs[..n][i].kind == "age_verification"; }
    }
    if HasAge(cs[..n]) {
      var i :| 0 <= i < n && cs[..n][i].kind == "age_verification";
      assert cs[i].kind == "age_verification";
    }
  }

  lemma SplitConcat<T>(a: seq<T>, b: seq<T>, c: seq<T>, d: seq<T>)
    requires |a| == |c|
    ensures a + b == c + d <==> a == c && b == d
  {
    if a + b == c + d {
      assert a == (a + b)[..|a|] && c == (c + d)[..|c|];
      assert b == (a + b)[|a|..] && d == (c + d)[|c|..];
    }
  }
}
