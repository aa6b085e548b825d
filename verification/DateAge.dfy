/**
 The calendar age check of blockchain-client, and its equivalence with the fixed
 `IdentityCircuit`.
 */
module DateAge {
  import opened Wrappers
  import opened ScalarField
  import opened Schema
  import opened Values
  import opened Circuit
  import opened Compiler

  predicate IsCalendar(clock: Clock) { 1 <= clock.month <= 12 && 1 <= clock.day <= 31 }

  /** (y, m, d) is not after (y', m', d'). */
  predicate NotAfter(y: int, m: int, d: int, y': int, m': int, d': int) {
    y < y' || (y == y' && (m < m' || (m == m' && d <= d')))
  }

  /** Whole years between a birth date and a later date. */
  function CompletedYears(y: int, m: int, d: int, clock: Clock): int {
    clock.year - y - (if NotAfter(0, m, d, 0, clock.month, clock.day) then 0 else 1)
  }

  lemma SatisfiesSeven(w: Witness, a: seq<Assertion>)
    requires |a| == 7
    ensures Satisfies(w, a) <==>
            && Holds(a[0], w) && Holds(a[1], w) && Holds(a[2], w) && Holds(a[3], w)
            && Holds(a[4], w) && Holds(a[5], w) && Holds(a[6], w)
  {
  }

  /** What the seven assertions say of the three field elements. */
  predicate Accepts(y: Element, m: Element, d: Element, minYear: Element, month: Element, day: Element) {
    && y <= minYear
    && 1 <= m <= 12
    && m <= (if y == minYear then month else 12)
    && 1 <= d <= 31
    && d <= (if y == minYear && m == month then day else 31)
  }

  lemma DateAgeEvaluated(w: Witness, yt: Term, mt: Term, dt: Term, minYear: int, month: int, day: int)
    requires InScope(yt, w) && InScope(mt, w) && InScope(dt, w)
    ensures Satisfies(w, DateAgeAssertions(yt, mt, dt, minYear, month, day)) <==>
            Accepts(Eval(yt, w), Eval(mt, w), Eval(dt, w), Encode(minYear), Encode(month), Encode(day))
  {
    hide Eval, InScope, Satisfies, Holds, Accepts;
    var yearIsMin, monthIsCurrent := IsZero(Sub(yt, Constant(minYear))), IsZero(Sub(mt, Constant(month)));
    var both := And(yearIsMin, monthIsCurrent);
    IsZeroOfSub(w, yt, minYear);
    IsZeroOfSub(w, mt, month);
    AndOfTerms(w, yearIsMin, monthIsCurrent);
    SelectOfConstants(w, yearIsMin, month, 12);
    SelectOfConstants(w, both, day, 31);
    ConstantIsEncoded(w, minYear);
    ConstantIsEncoded(w, 1);
    ConstantIsEncoded(w, 12);
    ConstantIsEncoded(w, 31);
    Assemble(w, yt, mt, dt, Constant(minYear), Constant(1), Constant(12), Constant(31),
             Select(yearIsMin, Constant(month), Constant(12)), Select(both, Constant(day), Constant(31)),
             Encode(minYear), Encode(month), Encode(day));
  }

  /** The seven assertions, with every compound term abstracted to its value. */
  lemma Assemble(
    w: Witness, y: Term, m: Term, d: Term, kMin: Term, k1: Term, k12: Term, k31: Term, selM: Term, selD: Term,
    minYear: Element, month: Element, day: Element)
    requires InScope(y, w) && InScope(m, w) && InScope(d, w) && InScope(kMin, w) && InScope(k1, w) && InScope(k12, w)
    requires InScope(k31, w) && InScope(selM, w) && InScope(selD, w)
    requires Eval(kMin, w) == minYear && Eval(k1, w) == 1 && Eval(k12, w) == 12 && Eval(k31, w) == 31
    requires Eval(selM, w) == if Eval(y, w) == minYear then month else 12
    requires Eval(selD, w) == if Eval(y, w) == minYear && Eval(m, w) == month then day else 31
    ensures Satisfies(w, [LessOrEqual(y, kMin), LessOrEqual(k1, m), LessOrEqual(m, k12), LessOrEqual(m, selM),
                          LessOrEqual(k1, d), LessOrEqual(d, k31), LessOrEqual(d, selD)])
            <==> Accepts(Eval(y, w), Eval(m, w), Eval(d, w), minYear, month, day)
  {
    hide Eval, InScope, Holds, Satisfies;
    SatisfiesSeven(w, [LessOrEqual(y, kMin), LessOrEqual(k1, m), LessOrEqual(m, k12), LessOrEqual(m, selM),
                       LessOrEqual(k1, d), LessOrEqual(d, k31), LessOrEqual(d, selD)]);
    LessOrEqualHolds(w, y, kMin);
    LessOrEqualHolds(w, k1, m);
    LessOrEqualHolds(w, m, k12);
    LessOrEqualHolds(w, m, selM);
    LessOrEqualHolds(w, k1, d);
    LessOrEqualHolds(w, d, k31);
    LessOrEqualHolds(w, d, selD);
  }

  lemma LessOrEqualHolds(w: Witness, l: Term, r: Term)
    requires InScope(l, w) && InScope(r, w)
    ensures Holds(LessOrEqual(l, r), w) <==> Eval(l, w) <= Eval(r, w)
  {
  }

  lemma AndOfTerms(w: Witness, l: Term, r: Term)
    requires InScope(l, w) && InScope(r, w)
    ensures InScope(And(l, r), w)
    ensures Eval(And(l, r), w) == if Eval(l, w) == 1 && Eval(r, w) == 1 then 1 else 0
  {
  }

  lemma SelectOfConstants(w: Witness, c: Term, a: int, b: int)
    requires InScope(c, w)
    ensures InScope(Select(c, Constant(a), Constant(b)), w)
    ensures Eval(Select(c, Constant(a), Constant(b)), w) == if Eval(c, w) == 1 then Encode(a) else Encode(b)
  {
    assert InScope(Constant(a), w) && InScope(Constant(b), w);
    assert Eval(Constant(a), w) == Encode(a) && Eval(Constant(b), w) == Encode(b);
  }

  lemma IsZeroOfSub(w: Witness, t: Term, z: int)
    requires InScope(t, w)
    ensures InScope(IsZero(Sub(t, Constant(z))), w)
    ensures Eval(IsZero(Sub(t, Constant(z))), w) == if Eval(t, w) == Encode(z) then 1 else 0
  {
    assert Eval(Sub(t, Constant(z)), w) == (Eval(t, w) - Encode(z)) % P;
  }

  /** Exactly the well-formed dates not after the threshold date pass, whatever the sign of the threshold year. */
  lemma DateAgeIsExact(w: Witness, yt: Term, mt: Term, dt: Term, minYear: int, clock: Clock)
    requires InScope(yt, w) && InScope(mt, w) && InScope(dt, w) && IsCalendar(clock)
    ensures var y, m, d := Eval(yt, w), Eval(mt, w), Eval(dt, w);
            Satisfies(w, DateAgeAssertions(yt, mt, dt, minYear, clock.month, clock.day)) <==>
            1 <= m <= 12 && 1 <= d <= 31 && NotAfter(y, m, d, Encode(minYear), clock.month, clock.day)
  {
    DateAgeEvaluated(w, yt, mt, dt, minYear, clock.month, clock.day);
  }

  // ----- the fixed circuit -----

  /** `IdentityCircuit.Define`; its secret inputs are day, month and year in that order. */
  function IdentityAssertions(clock: Clock): seq<Assertion> {
    var day, month, year := Secret(0), Secret(1), Secret(2);
    var minValidYear := Constant(clock.year - 18);
    var yearIsMinValid := IsZero(Sub(year, minValidYear));
    var monthIsCurrent := IsZero(Sub(month, Constant(clock.month)));
    [ LessOrEqual(year, minValidYear),
      LessOrEqual(Constant(1), month),
      LessOrEqual(month, Constant(12)),
      LessOrEqual(month, Select(yearIsMinValid, Constant(clock.month), Constant(12))),
      LessOrEqual(Constant(1), day),
      LessOrEqual(day, Constant(31)),
      LessOrEqual(day, Select(And(yearIsMinValid, monthIsCurrent), Constant(clock.day), Constant(31))) ]
  }

  /** blockchain-client's default schema. */
  const DEFAULT_AGE_FIELDS: seq<FieldDef> :=
    [ FieldDef("birth_year", "integer", true, true, false),
      FieldDef("birth_month", "integer", true, true, false),
      FieldDef("birth_day", "integer", true, true, false) ]

  const DEFAULT_AGE_CONSTRAINTS: seq<Constraint> :=
    [ Constraint("age_verification", ["birth_year", "birth_month", "birth_day"], "ge", Some(JNumber("18", 18.0))),
      Constraint("range_check", ["birth_month"], "between", Some(JArray([JNumber("1", 1.0), JNumber("12", 12.0)]))),
      Constraint("range_check", ["birth_day"], "between", Some(JArray([JNumber("1", 1.0), JNumber("31", 31.0)]))) ]

  lemma DefaultSchemaIsAcceptable()
    ensures Acceptable(DEFAULT_AGE_FIELDS, DEFAULT_AGE_CONSTRAINTS)
    ensures NormaliseAll(DEFAULT_AGE_FIELDS) == DEFAULT_AGE_FIELDS
  {
    var fs := DEFAULT_AGE_FIELDS;
    assert fs[0].name in Names(fs) && fs[1].name in Names(fs) && fs[2].name in Names(fs);
    assert fs[0].name[6] != fs[1].name[6] && fs[0].name[6] != fs[2].name[6] && fs[1].name[6] != fs[2].name[6];
  }

  lemma DefaultLayout()
    ensures var l := LayoutOf(DEFAULT_AGE_FIELDS);
            && l.secretOrder == ["birth_year", "birth_month", "birth_day"]
            && l.publicOrder == []
            && FieldTerm(l, "birth_year") == Some(Secret(0))
            && FieldTerm(l, "birth_month") == Some(Secret(1))
            && FieldTerm(l, "birth_day") == Some(Secret(2))
  {
    var fs := DEFAULT_AGE_FIELDS;
    assert fs[..2] == [fs[0], fs[1]] && fs[..2][..1] == [fs[0]] && [fs[0]][..0] == [];
    assert FieldOrder([], false) == [] && FieldOrder([], true) == [];
    assert FieldOrder([fs[0]], false) == ["birth_year"] && FieldOrder([fs[0]], true) == [];
    assert FieldOrder(fs[..2], false) == ["birth_year", "birth_month"] && FieldOrder(fs[..2], true) == [];
    var order := ["birth_year", "birth_month", "birth_day"];
    assert FieldOrder(fs, false) == order && FieldOrder(fs, true) == [];
    assert order[0][6] == 'y' && order[1][6] == 'm' && order[2][6] == 'd';
    IndexIsInverse(order);
    assert IndexOf(order)[order[0]] == 0 && IndexOf(order)[order[1]] == 1 && IndexOf(order)[order[2]] == 2;
  }

  /** What the default schema compiles to at a given clock reading. */
  lemma DefaultCompiles(lib: Library, clock: Clock)
    requires IsInt64(clock.year) && IsInt64(clock.year - 18)
    ensures Compile(Calendar, lib, DEFAULT_AGE_FIELDS, clock, DEFAULT_AGE_CONSTRAINTS) ==
            Some(DateAgeAssertions(Secret(0), Secret(1), Secret(2), clock.year - 18, clock.month, clock.day)
                 + [LessOrEqual(Constant(1), Secret(1)), LessOrEqual(Secret(1), Constant(12))]
                 + [LessOrEqual(Constant(1), Secret(2)), LessOrEqual(Secret(2), Constant(31))])
  {
    DefaultLayout();
    var fs, cs := DEFAULT_AGE_FIELDS, DEFAULT_AGE_CONSTRAINTS;
    assert ToInt64(18.0) == 18 && ToInt64(1.0) == 1 && ToInt64(12.0) == 12 && ToInt64(31.0) == 31;
    NumberPair(JNumber("1", 1.0), JNumber("12", 12.0));
    NumberPair(JNumber("1", 1.0), JNumber("31", 31.0));
    assert Bounds(cs[1]) == Some((1, 12)) && Bounds(cs[2]) == Some((1, 31));
    assert cs[..2] == [cs[0], cs[1]] && cs[..2][..1] == [cs[0]] && [cs[0]][..0] == [];
    var age := DateAgeAssertions(Secret(0), Secret(1), Secret(2), clock.year - 18, clock.month, clock.day);
    assert Emit(Calendar, lib, fs, clock, cs[0]) == Some(age);
    assert Compile(Calendar, lib, fs, clock, [cs[0]]) == Some(age) by {
      assert Compile(Calendar, lib, fs, clock, []) == Some([]);
      assert [] + age == age;
    }
    assert Compile(Calendar, lib, fs, clock, cs[..2]) ==
           Some(age + [LessOrEqual(Constant(1), Secret(1)), LessOrEqual(Secret(1), Constant(12))]);
  }

  lemma NumberPair(a: Json, b: Json)
    requires a.JNumber? && b.JNumber?
    ensures NumberItems([a, b]) == Some([a.number, b.number])
  {
    NumberItemsCons(b, [], []);
    assert [b] + [] == [b] && [b.number] + [] == [b.number];
    NumberItemsCons(a, [b], [b.number]);
    assert [a] + [b] == [a, b] && [a.number] + [b.number] == [a.number, b.number];
  }

  lemma NumberItemsCons(a: Json, rest: seq<Json>, rs: seq<real>)
    requires a.JNumber? && NumberItems(rest) == Some(rs)
    ensures NumberItems([a] + rest) == Some([a.number] + rs)
  {
    assert ([a] + rest)[1..] == rest;
  }

  /**
   For one clock reading, `IdentityCircuit` and the circuit built from the default
   age schema accept the same dates of birth, over the whole field.
   */
  lemma IdentityCircuitIsDefaultSchema(lib: Library, clock: Clock, y: Element, m: Element, d: Element)
    requires IsInt64(clock.year) && IsInt64(clock.year - 18)
    ensures Compile(Calendar, lib, DEFAULT_AGE_FIELDS, clock, DEFAULT_AGE_CONSTRAINTS).Some?
    ensures Satisfies(Witness([d, m, y], []), IdentityAssertions(clock)) <==>
            Satisfies(Witness([y, m, d], []),
                Compile(Calendar, lib, DEFAULT_AGE_FIELDS, clock, DEFAULT_AGE_CONSTRAINTS).value)
  {
    hide *;
    IdentityAccepts(clock, y, m, d);
    DefaultAccepts(lib, clock, y, m, d);
  }

  lemma IdentityAccepts(clock: Clock, y: Element, m: Element, d: Element)
    ensures Satisfies(Witness([d, m, y], []), IdentityAssertions(clock)) <==>
            Accepts(y, m, d, Encode(clock.year - 18), Encode(clock.month), Encode(clock.day))
  {
    var w := Witness([d, m, y], []);
    SlotReads(w, 0);
    SlotReads(w, 1);
    SlotReads(w, 2);
    assert IdentityAssertions(clock) ==
        DateAgeAssertions(Secret(2), Secret(1), Secret(0), clock.year - 18, clock.month, clock.day);
    hide *;
    DateAgeEvaluated(w, Secret(2), Secret(1), Secret(0), clock.year - 18, clock.month, clock.day);
  }

  lemma DefaultAccepts(lib: Library, clock: Clock, y: Element, m: Element, d: Element)
    requires IsInt64(clock.year) && IsInt64(clock.year - 18)
    ensures Compile(Calendar, lib, DEFAULT_AGE_FIELDS, clock, DEFAULT_AGE_CONSTRAINTS).Some?
    ensures Satisfies(Witness([y, m, d], []),
        Compile(Calendar, lib, DEFAULT_AGE_FIELDS, clock, DEFAULT_AGE_CONSTRAINTS).value) <==>
            Accepts(y, m, d, Encode(clock.year - 18), Encode(clock.month), Encode(clock.day))
  {
    var w := Witness([y, m, d], []);
    DefaultCompiles(lib, clock);
    SlotReads(w, 0);
    SlotReads(w, 1);
    SlotReads(w, 2);
    assert Constant(1) == Const(1) && Constant(12) == Const(12) && Constant(31) == Const(31);
    assert Accepts(y, m, d, Encode(clock.year - 18), Encode(clock.month), Encode(clock.day)) ==>
        1 <= m <= 12 && 1 <= d <= 31;
    hide *;
    DateAgeEvaluated(w, Secret(0), Secret(1), Secret(2), clock.year - 18, clock.month, clock.day);
    var age := DateAgeAssertions(Secret(0), Secret(1), Secret(2), clock.year - 18, clock.month, clock.day);
    RangeAssertions(w, age, 1, 12, 2, 31);
  }

  lemma SlotReads(w: Witness, i: nat)
    requires i < |w.secret|
    ensures InScope(Secret(i), w) && Eval(Secret(i), w) == w.secret[i]
  {
  }

  /** Adding two range checks to a circuit adds the two ranges. */
  lemma RangeAssertions(w: Witness, a: seq<Assertion>, i: nat, hi: Element, j: nat, hj: Element)
    requires i < |w.secret| && j < |w.secret|
    ensures Satisfies(w, a + [LessOrEqual(Const(1), Secret(i)), LessOrEqual(Secret(i), Const(hi))]
                           + [LessOrEqual(Const(1), Secret(j)), LessOrEqual(Secret(j), Const(hj))]) <==>
            Satisfies(w, a) && 1 <= w.secret[i] <= hi && 1 <= w.secret[j] <= hj
  {
    var x := [LessOrEqual(Const(1), Secret(i)), LessOrEqual(Secret(i), Const(hi))];
    var y := [LessOrEqual(Const(1), Secret(j)), LessOrEqual(Secret(j), Const(hj))];
    SatisfiesConcat(w, a + x, y);
    SatisfiesConcat(w, a, x);
    SatisfiesTwo(w, x[0], x[1]);
    SatisfiesTwo(w, y[0], y[1]);
    LessOrEqualHolds(w, Const(1), Secret(i));
    LessOrEqualHolds(w, Secret(i), Const(hi));
    LessOrEqualHolds(w, Const(1), Secret(j));
    LessOrEqualHolds(w, Secret(j), Const(hj));
  }
}
