/**
 The wallet's `ProveDynamicFromSchema` up to the witness: prepare the schema, hash
 string inputs, compile the circuit, assign the values and collect the slots.
 */
module Prover {
  import opened Wrappers
  import opened ScalarField
  import opened Schema
  import opened Values
  import opened Circuit
  import opened Compiler
  import opened Correctness
  import Decimal

  /** The type of a named field; an unknown name has none. */
  function KindOf(meta: map<string, FieldDef>, name: string): string {
    if name in meta then meta[name].kind else ""
  }

  function PreHashed(lib: Library, meta: map<string, FieldDef>, values: map<string, Raw>): map<string, Raw> {
    map name | name in values :: PreHash(lib, KindOf(meta, name), values[name])
  }

  method PreHashAll(
      lib: Library, meta: map<string, FieldDef>, values: map<string, Raw>) returns (hashed: map<string, Raw>)
    ensures hashed == PreHashed(lib, meta, values)
  {
    hashed := map[];
    var remaining := values.Keys;
    while remaining != {}
      invariant remaining <= values.Keys
      invariant hashed == map name | name in values && name !in remaining
          :: PreHash(lib, KindOf(meta, name), values[name])
    {
      var name :| name in remaining;
      remaining := remaining - {name};
      hashed := hashed[name := PreHash(lib, KindOf(meta, name), values[name])];
    }
  }

  /** The integer each field stands for in the witness. */
  ghost function Integer'(lib: Library, fields: seq<FieldDef>, values: map<string, Raw>, name: string): Option<int> {
    var hashed := PreHashed(lib, ByName(fields), values);
    if name in hashed && Convertible(Timestamped, lib, ByName(fields), hashed, name)
    then Denote(lib, Converted(Timestamped, lib, fields, hashed, name))
    else None
  }

  /** Every field has an integer, and nothing else is assigned. */
  ghost predicate Complete(lib: Library, fields: seq<FieldDef>, values: map<string, Raw>) {
    && values.Keys == Names(fields)
    && forall name | name in Names(fields) :: Integer'(lib, fields, values, name).Some?
  }

  ghost function Integers(lib: Library, fields: seq<FieldDef>, values: map<string, Raw>): map<string, int>
    requires Complete(lib, fields, values)
  {
    map name | name in Names(fields) :: Integer'(lib, fields, values, name).value
  }

  /** A string field's integer is the hash of the printed value, whatever the value was. */
  lemma StringFieldHoldsHash(lib: Library, fields: seq<FieldDef>, values: map<string, Raw>, name: string)
    requires name in values && name in ByName(fields) && ByName(fields)[name].kind == "string"
    ensures Integer'(lib, fields, values, name) == Some(lib.sha256(Sprint(lib, values[name])))
  {
    Decimal.ParseAfterPrint(lib.sha256(Sprint(lib, values[name])));
  }

  /** The integer a value stands for in the witness, by the type of its field and its shape. */
  predicate StandsFor(lib: Library, kind: string, raw: Raw, z: int) {
    && (kind != "string" ==> raw != RNil)
    && (kind == "integer" || kind == "number" ==> NumberBecomes(lib, raw, VInt(z)))
    && (kind == "boolean" ==> BooleanBecomes(lib, raw, VInt(z)))
    && (kind == "date" && raw.RStr? && lib.timestamp(raw.s).Some? ==> z == lib.timestamp(raw.s).value)
    && (kind == "string" ==> z == lib.sha256(if raw.RStr? then raw.s else Sprint(lib, raw)))
    && (kind !in {"integer", "number", "boolean", "date", "string"} ==>
          (raw.RInt? ==> z == raw.i) && (raw.RBig? ==> z == raw.n) && !raw.RFloat? && !raw.RNumber? && !raw.RBool?)
  }

  /** Every field's integer is what its value stands for. */
  lemma IntegersHold(lib: Library, fields: seq<FieldDef>, values: map<string, Raw>, i: nat)
    requires DistinctNames(fields) && Complete(lib, fields, values) && i < |fields|
    ensures fields[i].name in values && fields[i].name in Integers(lib, fields, values)
    ensures StandsFor(lib, fields[i].kind, values[fields[i].name], Integers(lib, fields, values)[fields[i].name])
  {
    var name, raw := fields[i].name, values[fields[i].name];
    assert name in Names(fields);
    ByNameFinds(fields, i);
    var hashed := PreHashed(lib, ByName(fields), values);
    assert hashed[name] == PreHash(lib, fields[i].kind, raw);
    if fields[i].kind == "string" {
      StringFieldHoldsHash(lib, fields, values, name);
    } else {
      assert Integer'(lib, fields, values, name).Some?;
      ConvertedHolds(lib, fields[i].kind, raw);
    }
    hide StandsFor, Convert, ByName, Denote;
  }

  lemma ConvertedHolds(lib: Library, kind: string, raw: Raw)
    requires kind != "string" && Convert(Timestamped, lib, kind, raw).Some?
    requires Denote(lib, Convert(Timestamped, lib, kind, raw).value).Some?
    ensures StandsFor(lib, kind, raw, Denote(lib, Convert(Timestamped, lib, kind, raw).value).value)
  {
    ConvertedBecomes(Timestamped, lib, kind, raw);
    if kind in {"integer", "number", "boolean"} { NumbersAreIntegers(lib, kind, raw); }
    hide Convert, NumberBecomes, BooleanBecomes, StringBecomes, Lower, ParseBase0;
  }

  lemma NumbersAreIntegers(lib: Library, kind: string, raw: Raw)
    requires kind in {"integer", "number", "boolean"} && Convert(Timestamped, lib, kind, raw).Some?
    ensures Convert(Timestamped, lib, kind, raw).value.VInt?
  {
    FoldsOnlyStrings(kind);
    hide FoldsToString;
  }

  /** `frontend.NewWitness` on one group of slots: every slot must hold a value gnark can read. */
  method Collect(lib: Library, slots: array<Option<Variable>>) returns (r: Option<seq<Element>>)
    ensures r.Some? <==> forall i | 0 <= i < slots.Length :: Readable(lib, slots[i])
    ensures r.Some? ==> |r.value| == slots.Length
    ensures r.Some? ==> forall i | 0 <= i < slots.Length :: r.value[i] == Encode(Denote(lib, slots[i].value).value)
  {
    var out: seq<Element> := [];
    for i := 0 to slots.Length
      invariant |out| == i
      invariant forall j | 0 <= j < i :: Readable(lib, slots[j])
      invariant forall j | 0 <= j < i :: out[j] == Encode(Denote(lib, slots[j].value).value)
    {
      if slots[i] == None { return None; }
      var z := Denote(lib, slots[i].value);
      if z == None { return None; }
      out := out + [Encode(z.value)];
    }
    return Some(out);
  }

  /**
   A circuit and witness come out iff the schema is acceptable, compiles, and the
   values name exactly its fields with readable values; the witness then satisfies
   the circuit iff every constraint holds on the fields' integers.
   */
  method ProveDynamic(lib: Library, fs: seq<FieldDef>, cs: seq<Constraint>, clock: Clock, values: map<string, Raw>)
    returns (r: Option<(seq<Assertion>, Witness)>)
    ensures r.Some? <==>
            && Acceptable(fs, cs)
            && Compile(Timestamped, lib, NormaliseAll(fs), clock, cs).Some?
            && Complete(lib, NormaliseAll(fs), values)
    ensures r.Some? ==>
              var fields := NormaliseAll(fs);
              var ints := Integers(lib, fields, values);
              && Some(r.value.0) == Compile(Timestamped, lib, fields, clock, cs)
              && r.value.1 == WitnessFor(fields, ints)
              && (Satisfies(r.value.1, r.value.0) <==>
                  AllHold(Field, Timestamped, lib, fields, clock, cs, ints))
  {
    hide LayoutOf, ByName, Compile, NormaliseAll, AllHold, WitnessFor, Satisfies, Acceptable, Complete,
        Convert, PreHash;
    var schema := new SchemaDefinition(fs, cs);
    var ok := schema.Prepare();
    if !ok { return None; }
    var fields := schema.fields;
    var circuit := new DynamicCircuit(fields);
    var hashed := PreHashAll(lib, circuit.meta, values);
    var compiled := Define(Timestamped, lib, fields, clock, cs);
    if compiled == None { return None; }
    ByNameKeys(fields);
    ok := circuit.AssignValues(Timestamped, lib, hashed);
    if !ok {
      if Complete(lib, fields, values) { CompleteIsAssignable(lib, fields, values); }
      return None;
    }
    var w := NewWitness(lib, circuit, cs, values);
    if w == None { return None; }
    CompileIsExact(Timestamped, lib, fields, clock, cs, Integers(lib, fields, values));
    return Some((compiled.value, w.value));
  }

  /** `frontend.NewWitness` after the assignment. */
  method NewWitness(lib: Library, circuit: DynamicCircuit, ghost cs: seq<Constraint>, ghost values: map<string, Raw>)
    returns (w: Option<Witness>)
    requires circuit.Valid() && Prepared(circuit.fields, cs)
    requires AssignedFresh(lib, circuit, values)
    ensures w.Some? <==> Complete(lib, circuit.fields, values)
    ensures w.Some? ==>
              w.value == WitnessFor(circuit.fields, Integers(lib, circuit.fields, values))
  {
    var secret := Collect(lib, circuit.secretValues);
    var public := Collect(lib, circuit.publicValues);
    AssignedFields(lib, circuit, values);
    AssignedSlots(lib, circuit, cs);
    if secret == None || public == None { return None; }
    w := Some(Witness(secret.value, public.value));
    assert Complete(lib, circuit.fields, values);
    CollectedWitness(lib, circuit, cs, Integers(lib, circuit.fields, values), w.value);
  }

  /** The circuit was fresh when the pre-hashed values were assigned, and the assignment succeeded. */
  ghost predicate AssignedFresh(lib: Library, circuit: DynamicCircuit, values: map<string, Raw>)
    requires circuit.Valid()
    reads circuit.secretValues, circuit.publicValues
  {
    var hashed := PreHashed(lib, ByName(circuit.fields), values);
    && Assignable(Timestamped, lib, circuit.fields, hashed)
    && forall name | name in Names(circuit.fields) ::
         circuit.FieldVariable(name) ==
         if name in hashed then Some(Converted(Timestamped, lib, circuit.fields, hashed, name)) else None
  }

  lemma CompleteIsAssignable(lib: Library, fields: seq<FieldDef>, values: map<string, Raw>)
    requires Complete(lib, fields, values)
    ensures Assignable(Timestamped, lib, fields, PreHashed(lib, ByName(fields), values))
  {
    var hashed := PreHashed(lib, ByName(fields), values);
    forall name | name in hashed ensures Convertible(Timestamped, lib, ByName(fields), hashed, name) {
      assert Integer'(lib, fields, values, name).Some?;
    }
    forall i | 0 <= i < |fields| ensures fields[i].name in hashed {
      assert fields[i].name in Names(fields);
    }
  }

  ghost predicate Readable(lib: Library, v: Option<Variable>) { v.Some? && Denote(lib, v.value).Some? }

  /** The array slots are the fields, in layout order. */
  lemma SlotsAreFields(circuit: DynamicCircuit, cs: seq<Constraint>)
    requires circuit.Valid() && Prepared(circuit.fields, cs)
    ensures forall i | 0 <= i < circuit.secretValues.Length ::
              && circuit.layout.secretOrder[i] in Names(circuit.fields)
              && circuit.secretValues[i] == circuit.FieldVariable(circuit.layout.secretOrder[i])
    ensures forall i | 0 <= i < circuit.publicValues.Length ::
              && circuit.layout.publicOrder[i] in Names(circuit.fields)
              && circuit.publicValues[i] == circuit.FieldVariable(circuit.layout.publicOrder[i])
    ensures forall name | name in Names(circuit.fields) ::
              || (exists i :: 0 <= i < circuit.secretValues.Length && circuit.layout.secretOrder[i] == name)
              || (exists i :: 0 <= i < circuit.publicValues.Length && circuit.layout.publicOrder[i] == name)
  {
    LayoutIsBijective(circuit.fields, cs);
  }

  /** After assigning a fresh circuit, a field is readable iff it has an integer, which is what it denotes. */
  lemma AssignedFields(lib: Library, circuit: DynamicCircuit, values: map<string, Raw>)
    requires circuit.Valid()
    requires AssignedFresh(lib, circuit, values)
    ensures values.Keys <= Names(circuit.fields)
    ensures forall name | name in Names(circuit.fields) ::
              && (Readable(lib, circuit.FieldVariable(name)) <==> Integer'(lib, circuit.fields, values, name).Some?)
              && (Readable(lib, circuit.FieldVariable(name)) ==>
                    name in values && Denote(lib, circuit.FieldVariable(name).value) ==
                        Integer'(lib, circuit.fields, values, name))
  {
    var hashed := PreHashed(lib, ByName(circuit.fields), values);
    ByNameKeys(circuit.fields);
    forall name | name in values ensures name in Names(circuit.fields) {
      assert name in hashed && Convertible(Timestamped, lib, ByName(circuit.fields), hashed, name);
    }
  }

  /** All slots are readable iff all fields are. */
  lemma AssignedSlots(lib: Library, circuit: DynamicCircuit, cs: seq<Constraint>)
    requires circuit.Valid() && Prepared(circuit.fields, cs)
    ensures (forall name | name in Names(circuit.fields) :: Readable(lib, circuit.FieldVariable(name))) <==>
            && (forall i | 0 <= i < circuit.secretValues.Length :: Readable(lib, circuit.secretValues[i]))
            && (forall i | 0 <= i < circuit.publicValues.Length :: Readable(lib, circuit.publicValues[i]))
  {
    SlotsAreFields(circuit, cs);
  }

  /** The collected slots are the witness of the fields' integers. */
  lemma CollectedWitness(lib: Library, circuit: DynamicCircuit, cs: seq<Constraint>, ints: map<string, int>, w: Witness)
    requires circuit.Valid() && Prepared(circuit.fields, cs)
    requires ints.Keys == Names(circuit.fields)
    requires forall name | name in ints ::
               Readable(lib, circuit.FieldVariable(name))
                   && Denote(lib, circuit.FieldVariable(name).value) == Some(ints[name])
    requires |w.secret| == circuit.secretValues.Length && |w.public| == circuit.publicValues.Length
    requires forall i | 0 <= i < |w.secret| ::
               Readable(lib, circuit.secretValues[i])
                   && w.secret[i] == Encode(Denote(lib, circuit.secretValues[i].value).value)
    requires forall i | 0 <= i < |w.public| ::
               Readable(lib, circuit.publicValues[i])
                   && w.public[i] == Encode(Denote(lib, circuit.publicValues[i].value).value)
    ensures w == WitnessFor(circuit.fields, ints)
  {
    hide LayoutOf, Denote, Encode, ByName, Prepared;
    LayoutWithin(circuit.fields, ints);
    SlotsAreFields(circuit, cs);
    assert w.secret == WitnessFor(circuit.fields, ints).secret;
    assert w.public == WitnessFor(circuit.fields, ints).public;
  }
}
