/**
 The BN254 scalar field as gnark exposes it to a circuit, and the assertion
 language a circuit's `Define` emits.  Every gadget works on canonical
 representatives in [0, P).
 */
module ScalarField {

  /** The BN254 scalar modulus. */
  const P: int := 21888242871839275222246405745257275088548364400416034343698204186575808495617

  const MIN_INT64: int := -0x8000_0000_0000_0000
  const MAX_INT64: int := 0x7fff_ffff_ffff_ffff

  type Element = x: int | 0 <= x < P

  predicate IsInt64(z: int) { MIN_INT64 <= z <= MAX_INT64 }

  /** Two's-complement truncation to 64 bits. */
  function Wrap64(z: int): (r: int)
    ensures IsInt64(r) && (IsInt64(z) ==> r == z)
  {
    (z + 0x8000_0000_0000_0000) % 0x1_0000_0000_0000_0000 - 0x8000_0000_0000_0000
  }

  /** How an integer becomes a field element. */
  function Encode(z: int): (e: Element)
    ensures 0 <= z < P ==> e == z
    ensures -P <= z < 0 ==> e == z + P
  {
    z % P
  }

  /** A circuit expression over the secret and public inputs. */
  datatype Term =
    | Secret(slot: nat)
    | Public(slot: nat)
    | Const(value: Element)
    | Add(left: Term, right: Term)
    | Sub(left: Term, right: Term)
    | IsZero(arg: Term)
    | And(left: Term, right: Term)
    | Select(cond: Term, left: Term, right: Term)

  datatype Assertion =
    | LessOrEqual(left: Term, right: Term)
    | Equal(left: Term, right: Term)
    | Different(left: Term, right: Term)

  datatype Witness = Witness(secret: seq<Element>, public: seq<Element>)

  predicate InScope(t: Term, w: Witness) {
    match t
    case Secret(i) => i < |w.secret|
    case Public(i) => i < |w.public|
    case Const(_) => true
    case Add(l, r) => InScope(l, w) && InScope(r, w)
    case Sub(l, r) => InScope(l, w) && InScope(r, w)
    case IsZero(a) => InScope(a, w)
    case And(l, r) => InScope(l, w) && InScope(r, w)
    case Select(c, l, r) => InScope(c, w) && InScope(l, w) && InScope(r, w)
  }

  function Eval(t: Term, w: Witness): Element
    requires InScope(t, w)
  {
    match t
    case Secret(i) => w.secret[i]
    case Public(i) => w.public[i]
    case Const(c) => c
    case Add(l, r) => (Eval(l, w) + Eval(r, w)) % P
    case Sub(l, r) => (Eval(l, w) - Eval(r, w)) % P
    case IsZero(a) => if Eval(a, w) == 0 then 1 else 0
    case And(l, r) => if Eval(l, w) == 1 && Eval(r, w) == 1 then 1 else 0
    case Select(c, l, r) => if Eval(c, w) == 1 then Eval(l, w) else Eval(r, w)
  }

  /** The witness meets one assertion. */
  predicate Holds(a: Assertion, w: Witness) {
    && InScope(a.left, w)
    && InScope(a.right, w)
    && var l, r := Eval(a.left, w), Eval(a.right, w);
       match a
       case LessOrEqual(_, _) => l <= r
       case Equal(_, _) => l == r
       case Different(_, _) => l != r
  }

  /** The witness meets every assertion of a circuit. */
  predicate Satisfies(w: Witness, circuit: seq<Assertion>) {
    forall i | 0 <= i < |circuit| :: Holds(circuit[i], w)
  }

  lemma SatisfiesConcat(w: Witness, a: seq<Assertion>, b: seq<Assertion>)
    ensures Satisfies(w, a + b) <==> Satisfies(w, a) && Satisfies(w, b)
  {
    if Satisfies(w, a + b) {
      forall i | 0 <= i < |a| ensures Holds(a[i], w) { assert a[i] == (a + b)[i]; }
      forall i | 0 <= i < |b| ensures Holds(b[i], w) { assert b[i] == (a + b)[|a| + i]; }
    }
  }

  // ----- comparing integers through the field -----

  /**
   Three readings of "less or equal", "less" and "same": the assertions gnark
   evaluates on encoded integers (`Field`), their closed form on int64 values
   (`Signed`), and ordinary integer comparison (`Integer`).
   */
  datatype Order = Field | Signed | Integer

  predicate Le(o: Order, a: int, b: int) {
    match o
    case Field => Encode(a) <= Encode(b)
    case Signed => if a >= 0 then b < 0 || a <= b else b < 0 && a <= b
    case Integer => a <= b
  }

  /** The `Field` reading is `AssertIsLessOrEqual(Add(a, 1), b)`. */
  predicate Lt(o: Order, a: int, b: int) {
    match o
    case Field => (Encode(a) + Encode(1)) % P <= Encode(b)
    case Signed => a == -1 || (Le(Signed, a, b) && a != b)
    case Integer => a < b
  }

  predicate Same(o: Order, a: int, b: int) {
    match o
    case Field => Encode(a) == Encode(b)
    case Signed => a == b
    case Integer => a == b
  }

  lemma SignedOrderIsExact(a: int, b: int)
    requires IsInt64(a) && IsInt64(b)
    ensures Le(Field, a, b) <==> Le(Signed, a, b)
    ensures Lt(Field, a, b) <==> Lt(Signed, a, b)
    ensures Same(Field, a, b) <==> Same(Signed, a, b)
  {
  }

  lemma IntegerOrderIsExact(a: int, b: int)
    requires 0 <= a < P - 1 && 0 <= b < P - 1
    ensures Le(Field, a, b) <==> Le(Integer, a, b)
    ensures Lt(Field, a, b) <==> Lt(Integer, a, b)
    ensures Same(Field, a, b) <==> Same(Integer, a, b)
  {
  }

  /** The comparisons of two int64 values that the field decides as the integers do. */
  predicate SameSign(a: int, b: int) { (a < 0) == (b < 0) }

  predicate LtAgrees(a: int, b: int) { if a == -1 then b >= 0 else (a < 0) == (b < 0) }

  /** Exactly when an assertion compares two int64 values as integers: a question of their signs. */
  lemma IntegerReadingIsExact(a: int, b: int)
    requires IsInt64(a) && IsInt64(b)
    ensures (Le(Field, a, b) <==> Le(Integer, a, b)) <==> SameSign(a, b)
    ensures (Lt(Field, a, b) <==> Lt(Integer, a, b)) <==> LtAgrees(a, b)
    ensures Same(Field, a, b) <==> Same(Integer, a, b)
  {
  }

  /** `Add(x, 1)` wraps exactly at P - 1, where the strict comparison accepts every right-hand side. */
  lemma StrictComparisonWraps(a: int, b: int)
    ensures Lt(Field, a, b) <==> Encode(a) == P - 1 || Encode(a) < Encode(b)
  {
  }
}
