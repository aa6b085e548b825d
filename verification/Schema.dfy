/**
 Parsed schemas: field normalisation (`prepare`), the two field orders, and the
 readers of a constraint's JSON value.
 */
module Schema {
  import opened Wrappers
  import opened ScalarField

  /** A parsed JSON value; a number keeps its literal text. */
  datatype Json =
    | JNull
    | JBool(b: bool)
    | JNumber(text: string, number: real)
    | JString(s: string)
    | JArray(items: seq<Json>)
    | JObject(members: map<string, Json>)

  datatype FieldDef = FieldDef(name: string, kind: string, required: bool, secret: bool, isPublic: bool)

  /** `value` is `None` when the schema gives no value. */
  datatype Constraint = Constraint(kind: string, fields: seq<string>, operator: string, value: Option<Json>)

  // ----- prepare -----

  function Normalise(f: FieldDef): (r: FieldDef)
    ensures r.secret == !r.isPublic && r.kind != ""
    ensures r.name == f.name && r.required == f.required && r.isPublic == f.isPublic
    ensures r.kind == if f.kind == "" then "string" else f.kind
  {
    var shown := if f.isPublic then f.(secret := false)
                 else if !f.secret then f.(secret := true)
                 else f;
    if shown.kind == "" then shown.(kind := "string") else shown
  }

  function NormaliseAll(fields: seq<FieldDef>): (r: seq<FieldDef>)
    ensures |r| == |fields|
    ensures forall i | 0 <= i < |fields| :: r[i] == Normalise(fields[i])
  {
    seq(|fields|, i requires 0 <= i < |fields| => Normalise(fields[i]))
  }

  predicate DistinctNames(fields: seq<FieldDef>) {
    forall i, j | 0 <= i < j < |fields| :: fields[i].name != fields[j].name
  }

  function Names(fields: seq<FieldDef>): set<string> {
    set i | 0 <= i < |fields| :: fields[i].name
  }

  predicate ConstraintOk(c: Constraint, names: set<string>) {
    && c.kind != ""
    && c.fields != []
    && forall k | 0 <= k < |c.fields| :: c.fields[k] in names
  }

  predicate NamesOk(fields: seq<FieldDef>) {
    (forall i | 0 <= i < |fields| :: fields[i].name != "") && DistinctNames(fields)
  }

  /** What `prepare` demands of a schema. */
  predicate Acceptable(fields: seq<FieldDef>, constraints: seq<Constraint>) {
    && fields != []
    && NamesOk(fields)
    && forall i | 0 <= i < |constraints| :: ConstraintOk(constraints[i], Names(fields))
  }

  /** What every later step may rely on. */
  predicate Prepared(fields: seq<FieldDef>, constraints: seq<Constraint>) {
    && Acceptable(fields, constraints)
    && forall i | 0 <= i < |fields| :: fields[i].secret == !fields[i].isPublic && fields[i].kind != ""
  }

  /** The index `name -> field` that both the schema and the circuit keep. */
  function ByName(fields: seq<FieldDef>): map<string, FieldDef> {
    if fields == [] then map[]
    else var n := |fields| - 1; ByName(fields[..n])[fields[n].name := fields[n]]
  }

  lemma {:induction false} ByNameKeys(fields: seq<FieldDef>)
    ensures ByName(fields).Keys == Names(fields)
  {
    if fields != [] {
      var n := |fields| - 1;
      ByNameKeys(fields[..n]);
      NamesStep(fields, n);
      assert fields[..n + 1] == fields;
    }
  }

  lemma ByNameStep(fields: seq<FieldDef>, i: nat)
    requires i < |fields|
    ensures ByName(fields[..i + 1]) == ByName(fields[..i])[fields[i].name := fields[i]]
  {
    assert fields[..i + 1][..i] == fields[..i];
  }

  lemma {:induction false} ByNameFinds(fields: seq<FieldDef>, i: nat)
    requires DistinctNames(fields) && i < |fields|
    ensures fields[i].name in ByName(fields) && ByName(fields)[fields[i].name] == fields[i]
  {
    var n := |fields| - 1;
    if i < n { ByNameFinds(fields[..n], i); }
  }

  /** Preparing keeps the names and the visibility, and preparing a prepared schema changes nothing. */
  lemma PrepareIsIdempotent(fields: seq<FieldDef>, constraints: seq<Constraint>)
    requires Acceptable(fields, constraints)
    ensures Prepared(NormaliseAll(fields), constraints)
    ensures Names(NormaliseAll(fields)) == Names(fields)
    ensures NormaliseAll(NormaliseAll(fields)) == NormaliseAll(fields)
  {
    NormaliseKeepsNames(fields);
  }

  class SchemaDefinition {
    var fields: seq<FieldDef>
    var constraints: seq<Constraint>
    var fieldIndex: map<string, FieldDef>

    constructor (fs: seq<FieldDef>, cs: seq<Constraint>)
      ensures fields == fs && constraints == cs
    {
      fields, constraints, fieldIndex := fs, cs, map[];
    }

    /** Succeeds on exactly the acceptable schemas; a failure may leave the fields half rewritten. */
    method Prepare() returns (ok: bool)
      modifies this
      ensures constraints == old(constraints)
      ensures ok <==> Acceptable(old(fields), constraints)
      ensures ok ==> fields == NormaliseAll(old(fields)) && fieldIndex == ByName(fields)
      ensures ok ==> Prepared(fields, constraints)
    {
      if |fields| == 0 { return false; }
      ghost var was := fields;
      ok := NormaliseFields();
      if !ok { return; }
      ok := CheckConstraints(constraints, fieldIndex);
      ByNameKeys(fields);
      NormaliseKeepsNames(was);
      if ok { PrepareIsIdempotent(was, constraints); }
    }

    /** The first loop: normalises the fields in place and indexes them. */
    method NormaliseFields() returns (ok: bool)
      modifies `fields, `fieldIndex
      ensures ok <==> NamesOk(old(fields))
      ensures ok ==> fields == NormaliseAll(old(fields)) && fieldIndex == ByName(fields)
    {
      ghost var was := fields;
      ghost var want := NormaliseAll(was);
      fieldIndex := map[];
      var i := 0;
      while i < |fields|
        invariant 0 <= i <= |fields| == |was|
        invariant Overwritten(want, was, i, fields)
        invariant fieldIndex == ByName(want[..i])
        invariant fieldIndex.Keys == Names(was[..i])
        invariant NamesOk(was[..i])
      {
        var field := fields[i];
        ghost var before := fields;
        assert field == was[i];
        NamesOkStep(was, i);
        if field.name == "" { return false; }
        if field.name in fieldIndex { return false; }
        field := Normalise(field);
        fieldIndex := fieldIndex[field.name := field];
        fields := fields[i := field];
        OverwrittenStep(want, was, i, before, fields);
        ByNameStep(want, i);
        i := i + 1;
      }
      assert want[..i] == want && was[..i] == was && fields == want;
      return true;
    }
  }

  lemma NormaliseKeepsNames(fields: seq<FieldDef>)
    ensures Names(NormaliseAll(fields)) == Names(fields)
  {
    var r := NormaliseAll(fields);
    forall x | x in Names(fields) ensures x in Names(r) {
      var i :| 0 <= i < |fields| && fields[i].name == x;
      assert r[i].name == x;
    }
  }

  /** `now` holds the first `i` items of `done` and the remaining ones of `todo`. */
  ghost predicate Overwritten<T>(done: seq<T>, todo: seq<T>, i: nat, now: seq<T>) {
    && |now| == |done| == |todo|
    && forall j | 0 <= j < |now| :: now[j] == if j < i then done[j] else todo[j]
  }

  lemma OverwrittenStep<T>(done: seq<T>, todo: seq<T>, i: nat, before: seq<T>, now: seq<T>)
    requires i < |before| && Overwritten(done, todo, i, before) && now == before[i := done[i]]
    ensures Overwritten(done, todo, i + 1, now)
  {
  }

  /** One more name is acceptable iff it is non-empty and new; a bad name stays bad. */
  lemma NamesOkStep(was: seq<FieldDef>, i: nat)
    requires i < |was| && NamesOk(was[..i])
    ensures Names(was[..i + 1]) == Names(was[..i]) + {was[i].name}
    ensures was[i].name != "" && was[i].name !in Names(was[..i]) ==> NamesOk(was[..i + 1])
    ensures was[i].name == "" || was[i].name in Names(was[..i]) ==> !NamesOk(was)
  {
    NamesStep(was, i);
    if was[i].name in Names(was[..i]) {
      var j :| 0 <= j < i && was[..i][j].name == was[i].name;
      assert was[j].name == was[i].name;
    } else {
      forall j | 0 <= j < i ensures was[j].name != was[i].name {
        assert was[..i][j].name in Names(was[..i]);
      }
    }
  }

  lemma NamesStep(fields: seq<FieldDef>, n: nat)
    requires n < |fields|
    ensures Names(fields[..n + 1]) == Names(fields[..n]) + {fields[n].name}
  {
    forall x | x in Names(fields[..n + 1]) ensures x in Names(fields[..n]) + {fields[n].name} {
      var i :| 0 <= i < n + 1 && fields[..n + 1][i].name == x;
      if i < n { assert fields[..n][i].name == x; }
    }
    forall x | x in Names(fields[..n]) ensures x in Names(fields[..n + 1]) {
      var i :| 0 <= i < n && fields[..n][i].name == x;
      assert fields[..n + 1][i].name == x;
    }
    assert fields[..n + 1][n].name == fields[n].name;
  }

  /** The second loop of `prepare`. */
  method CheckConstraints(constraints: seq<Constraint>, index: map<string, FieldDef>) returns (ok: bool)
    ensures ok <==> forall i | 0 <= i < |constraints| :: ConstraintOk(constraints[i], index.Keys)
  {
    for i := 0 to |constraints|
      invariant forall j | 0 <= j < i :: ConstraintOk(constraints[j], index.Keys)
    {
      var c := constraints[i];
      if c.kind == "" { return false; }
      if |c.fields| == 0 { return false; }
      for k := 0 to |c.fields|
        invariant forall j | 0 <= j < k :: c.fields[j] in index.Keys
      {
        if c.fields[k] !in index {
          assert !ConstraintOk(constraints[i], index.Keys);
          return false;
        }
      }
    }
    return true;
  }

  // ----- field orders -----

  /** The names of the fields of one visibility, in schema order. */
  function FieldOrder(fields: seq<FieldDef>, isPublic: bool): seq<string> {
    if fields == [] then []
    else
      var n := |fields| - 1;
      var before := FieldOrder(fields[..n], isPublic);
      if fields[n].isPublic == isPublic then before + [fields[n].name] else before
  }

  method SecretFieldOrder(fields: seq<FieldDef>) returns (order: seq<string>)
    ensures order == FieldOrder(fields, false)
  {
    order := [];
    for i := 0 to |fields|
      invariant order == FieldOrder(fields[..i], false)
    {
      assert fields[..i + 1][..i] == fields[..i];
      if !fields[i].isPublic { order := order + [fields[i].name]; }
    }
    assert fields[..|fields|] == fields;
  }

  method PublicFieldOrder(fields: seq<FieldDef>) returns (order: seq<string>)
    ensures order == FieldOrder(fields, true)
  {
    order := [];
    for i := 0 to |fields|
      invariant order == FieldOrder(fields[..i], true)
    {
      assert fields[..i + 1][..i] == fields[..i];
      if fields[i].isPublic { order := order + [fields[i].name]; }
    }
    assert fields[..|fields|] == fields;
  }

  predicate NoRepeats(order: seq<string>) { forall i, j | 0 <= i < j < |order| :: order[i] != order[j] }

  /** An order lists exactly the names of its visibility, without repetition when the names are distinct. */
  lemma {:induction false} FieldOrderListsVisibility(fields: seq<FieldDef>, isPublic: bool)
    ensures forall x :: x in FieldOrder(fields, isPublic) <==>
                        exists i :: 0 <= i < |fields| && fields[i].name == x && fields[i].isPublic == isPublic
    ensures DistinctNames(fields) ==> NoRepeats(FieldOrder(fields, isPublic))
  {
    if fields != [] {
      var n := |fields| - 1;
      var front := fields[..n];
      FieldOrderListsVisibility(front, isPublic);
      forall x | exists i :: 0 <= i < |fields| && fields[i].name == x && fields[i].isPublic == isPublic
        ensures x in FieldOrder(fields, isPublic)
      {
        var i :| 0 <= i < |fields| && fields[i].name == x && fields[i].isPublic == isPublic;
        if i < n { assert front[i].name == x; }
      }
      forall x | x in FieldOrder(fields, isPublic)
        ensures exists i :: 0 <= i < |fields| && fields[i].name == x && fields[i].isPublic == isPublic
      {
        if x in FieldOrder(front, isPublic) {
          var i :| 0 <= i < n && front[i].name == x && front[i].isPublic == isPublic;
          assert fields[i].name == x;
        }
      }
      assert DistinctNames(fields) ==> fields[n].name !in FieldOrder(front, isPublic);
    }
  }

  /** An order keeps the order of the schema. */
  lemma {:induction false} FieldOrderKeepsOrder(fields: seq<FieldDef>, isPublic: bool, a: nat, b: nat)
    requires a < b < |FieldOrder(fields, isPublic)|
    ensures exists i, j | 0 <= i < j < |fields| ::
              && fields[i].name == FieldOrder(fields, isPublic)[a] && fields[i].isPublic == isPublic
              && fields[j].name == FieldOrder(fields, isPublic)[b] && fields[j].isPublic == isPublic
  {
    var n := |fields| - 1;
    var front := FieldOrder(fields[..n], isPublic);
    if b < |front| {
      FieldOrderKeepsOrder(fields[..n], isPublic, a, b);
      var i, j :| 0 <= i < j < n
                  && fields[..n][i].name == front[a] && fields[..n][i].isPublic == isPublic
                  && fields[..n][j].name == front[b] && fields[..n][j].isPublic == isPublic;
      assert fields[i].name == front[a] && fields[j].name == front[b];
    } else {
      FieldOrderListsVisibility(fields[..n], isPublic);
      assert front[a] in front;
      var i :| 0 <= i < n && fields[..n][i].name == front[a] && fields[..n][i].isPublic == isPublic;
      assert fields[i].name == front[a] && fields[n].isPublic == isPublic;
    }
  }

  // ----- constraint values -----

  /** Go's `int64(f)`: truncation toward zero, and the minimum when the value does not fit (amd64). */
  function ToInt64(r: real): (z: int)
    ensures IsInt64(z)
    ensures IsInt64(r.Floor) && r.Floor as real == r ==> z == r.Floor
  {
    var z := if r >= 0.0 then r.Floor else -((-r).Floor);
    if IsInt64(z) then z else MIN_INT64
  }

  /** `numeral` reads a numeric string, as `strconv` does. */
  function ValueAsInt(c: Constraint, numeral: string -> Option<real>): Option<int> {
    match c.value
    case Some(JNumber(_, r)) => Some(ToInt64(r))
    case Some(JNull) => Some(0)
    case Some(JString(s)) => var r :- numeral(s); Some(ToInt64(r))
    case _ => None
  }

  /** A number in range is cut off toward zero. */
  predicate Truncates(f: real, z: int) {
    if f >= 0.0 then z as real <= f < z as real + 1.0 else z as real - 1.0 < f <= z as real
  }

  predicate InRange(f: real) { MIN_INT64 as real <= f <= MAX_INT64 as real }

  lemma ToInt64Truncates(f: real)
    requires InRange(f)
    ensures Truncates(f, ToInt64(f))
  {
  }

  /** The number that a JSON number, a numeric text or `null` gives, where anything else is refused. */
  lemma ValueIsNumber(c: Constraint, numeral: string -> Option<real>)
    ensures var z := ValueAsInt(c, numeral);
            match c.value
            case Some(JNumber(_, f)) => InRange(f) ==> z.Some? && Truncates(f, z.value)
            case Some(JString(s)) =>
              && (numeral(s) == None ==> z == None)
              && (numeral(s).Some? && InRange(numeral(s).value) ==> z.Some? && Truncates(numeral(s).value, z.value))
            case Some(JNull) => z == Some(0)
            case _ => z == None
  {
    match c.value
    case Some(JNumber(_, f)) => if InRange(f) { ToInt64Truncates(f); }
    case Some(JString(s)) =>
      if numeral(s).Some? && InRange(numeral(s).value) { ToInt64Truncates(numeral(s).value); }
    case _ =>
  }

  function NumberItems(items: seq<Json>): Option<seq<real>> {
    if items == [] then Some([])
    else
      var rest :- NumberItems(items[1..]);
      match items[0]
      case JNumber(_, r) => Some([r] + rest)
      case JNull => Some([0.0] + rest)
      case _ => None
  }

  function ValueAsNumberSlice(c: Constraint): Option<seq<real>> {
    match c.value
    case Some(JArray(items)) => NumberItems(items)
    case Some(JNull) => Some([])
    case _ => None
  }

  function ToIntBound(r: real): Option<int> {
    if r.Floor as real != r then None else Some(ToInt64(r))
  }

  /** The two whole-number bounds of a range constraint. */
  function Bounds(c: Constraint): Option<(int, int)> {
    var rs :- ValueAsNumberSlice(c);
    if |rs| != 2 then None else
    var lo :- ToIntBound(rs[0]);
    var hi :- ToIntBound(rs[1]);
    Some((lo, hi))
  }
}
