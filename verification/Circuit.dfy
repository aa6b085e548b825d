/**
 `DynamicCircuit`: the layout of a schema's fields in secret and public slots,
 and the assignment of values to those slots.
 */
module Circuit {
  import opened Wrappers
  import opened ScalarField
  import opened Schema
  import opened Values

  // ----- layout -----

  datatype Layout = Layout(
    secretOrder: seq<string>,
    publicOrder: seq<string>,
    secretIndex: map<string, nat>,
    publicIndex: map<string, nat>)

  /** Each name's position in the order. */
  function IndexOf(order: seq<string>): map<string, nat> {
    if order == [] then map[]
    else var n := |order| - 1; IndexOf(order[..n])[order[n] := n]
  }

  function LayoutOf(fields: seq<FieldDef>): Layout {
    var s, p := FieldOrder(fields, false), FieldOrder(fields, true);
    Layout(s, p, IndexOf(s), IndexOf(p))
  }

  /** `index` and `order` are inverse to each other. */
  ghost predicate Inverse(order: seq<string>, index: map<string, nat>) {
    && (forall x | x in index :: index[x] < |order| && order[index[x]] == x)
    && (forall i | 0 <= i < |order| :: order[i] in index && index[order[i]] == i)
  }

  lemma {:induction false} IndexPointsBack(order: seq<string>, x: string)
    ensures x in IndexOf(order) <==> x in order
    ensures x in IndexOf(order) ==> IndexOf(order)[x] < |order| && order[IndexOf(order)[x]] == x
  {
    if order != [] {
      var n := |order| - 1;
      IndexPointsBack(order[..n], x);
      assert order == order[..n] + [order[n]];
    }
  }

  lemma IndexIsInverse(order: seq<string>)
    requires NoRepeats(order)
    ensures Inverse(order, IndexOf(order))
    ensures forall x :: x in IndexOf(order) <==> x in order
  {
    forall x ensures x in IndexOf(order) <==> x in order { IndexPointsBack(order, x); }
    forall x | x in IndexOf(order)
      ensures IndexOf(order)[x] < |order| && order[IndexOf(order)[x]] == x
    {
      IndexPointsBack(order, x);
    }
    forall i | 0 <= i < |order| ensures order[i] in IndexOf(order) && IndexOf(order)[order[i]] == i {
      IndexPointsBack(order, order[i]);
    }
  }

  /** The secret and public indices are disjoint bijections that together cover every field name. */
  lemma LayoutIsBijective(fields: seq<FieldDef>, constraints: seq<Constraint>)
    requires Prepared(fields, constraints)
    ensures var l := LayoutOf(fields);
            && Inverse(l.secretOrder, l.secretIndex)
            && Inverse(l.publicOrder, l.publicIndex)
            && l.secretIndex.Keys !! l.publicIndex.Keys
            && l.secretIndex.Keys + l.publicIndex.Keys == Names(fields)
  {
    var l := LayoutOf(fields);
    FieldOrderListsVisibility(fields, false);
    FieldOrderListsVisibility(fields, true);
    IndexIsInverse(l.secretOrder);
    IndexIsInverse(l.publicOrder);
    forall x | x in Names(fields) ensures x in l.secretIndex.Keys + l.publicIndex.Keys {
      var i :| 0 <= i < |fields| && fields[i].name == x;
      assert fields[i].isPublic == false || fields[i].isPublic == true;
    }
  }

  // ----- assignment -----

  predicate Convertible(d: Dialect, lib: Library, meta: map<string, FieldDef>, values: map<string, Raw>, name: string)
    requires name in values
  {
    name in meta && Convert(d, lib, meta[name].kind, values[name]).Some?
  }

  /** The values whose assignment succeeds. */
  ghost predicate Assignable(d: Dialect, lib: Library, fields: seq<FieldDef>, values: map<string, Raw>) {
    && (forall name | name in values :: Convertible(d, lib, ByName(fields), values, name))
    && (forall i | 0 <= i < |fields| :: fields[i].required ==> fields[i].name in values)
  }

  /** The variable an assigned name becomes. */
  function Converted(d: Dialect, lib: Library, fields: seq<FieldDef>, values: map<string, Raw>, name: string): Variable
    requires name in values && Convertible(d, lib, ByName(fields), values, name)
  {
    Convert(d, lib, ByName(fields)[name].kind, values[name]).value
  }

  /** Every value belongs to a field whose type takes its shape, and every required field has a value. */
  ghost predicate AllShaped(d: Dialect, lib: Library, fields: seq<FieldDef>, values: map<string, Raw>) {
    && (forall name | name in values ::
          exists i :: 0 <= i < |fields| && fields[i].name == name && HasShape(d, lib, fields[i].kind, values[name]))
    && (forall i | 0 <= i < |fields| :: fields[i].required ==> fields[i].name in values)
  }

  /** Whether an assignment succeeds is a question of names and shapes. */
  lemma AssignableIff(d: Dialect, lib: Library, fields: seq<FieldDef>, values: map<string, Raw>)
    requires DistinctNames(fields)
    ensures Assignable(d, lib, fields, values) <==> AllShaped(d, lib, fields, values)
  {
    hide Convert, HasShape, ByName;
    ByNameKeys(fields);
    forall name | name in values
      ensures Convertible(d, lib, ByName(fields), values, name) <==>
              exists i :: 0 <= i < |fields| && fields[i].name == name && HasShape(d, lib, fields[i].kind, values[name])
    {
      if name in Names(fields) {
        var i :| 0 <= i < |fields| && fields[i].name == name;
        ByNameFinds(fields, i);
        ConvertsIff(d, lib, fields[i].kind, values[name]);
      }
    }
  }

  /** What an assigned field reads as, by its type and the shape of its value. */
  lemma AssignedBecomes(d: Dialect, lib: Library, fields: seq<FieldDef>, values: map<string, Raw>, i: nat)
    requires DistinctNames(fields) && Assignable(d, lib, fields, values) && i < |fields| && fields[i].name in values
    ensures Convertible(d, lib, ByName(fields), values, fields[i].name)
    ensures Becomes(d, lib, fields[i].kind, values[fields[i].name], Converted(d, lib, fields, values, fields[i].name))
  {
    assert Convertible(d, lib, ByName(fields), values, fields[i].name);
    ByNameFinds(fields, i);
    ConvertedBecomes(d, lib, fields[i].kind, values[fields[i].name]);
    hide Becomes, Convert;
  }

  class DynamicCircuit {
    const fields: seq<FieldDef>
    const layout: Layout
    const meta: map<string, FieldDef>
    const secretValues: array<Option<Variable>>
    const publicValues: array<Option<Variable>>

    ghost predicate Valid() {
      && layout == LayoutOf(fields)
      && meta == ByName(fields)
      && secretValues.Length == |layout.secretOrder|
      && publicValues.Length == |layout.publicOrder|
      && secretValues != publicValues
    }

    /** `NewDynamicCircuit`. */
    constructor (fs: seq<FieldDef>)
      ensures Valid() && fields == fs
      ensures fresh(secretValues) && fresh(publicValues)
      ensures forall name :: FieldVariable(name) == None
    {
      var s := SecretFieldOrder(fs);
      var p := PublicFieldOrder(fs);
      var si := FillIndex(s);
      var pi := FillIndex(p);
      var m := map[];
      for i := 0 to |fs|
        invariant m == ByName(fs[..i])
      {
        ByNameStep(fs, i);
        m := m[fs[i].name := fs[i]];
      }
      assert fs[..|fs|] == fs;
      fields, layout, meta := fs, Layout(s, p, si, pi), m;
      secretValues := new Option<Variable>[|s|](_ => None);
      publicValues := new Option<Variable>[|p|](_ => None);
      new;
      forall name ensures FieldVariable(name) == None {
        IndexPointsBack(layout.secretOrder, name);
        IndexPointsBack(layout.publicOrder, name);
      }
    }

    /** The slot `fieldVariable` reads; `None` is an unknown name or a slot nobody filled. */
    function FieldVariable(name: string): Option<Variable>
      requires Valid()
      reads secretValues, publicValues
    {
      IndexPointsBack(layout.secretOrder, name);
      IndexPointsBack(layout.publicOrder, name);
      if name in layout.secretIndex then secretValues[layout.secretIndex[name]]
      else if name in layout.publicIndex then publicValues[layout.publicIndex[name]]
      else None
    }

    /**
     Success, and what is assigned on success, do not depend on the order in which
     the values are visited: every assigned name reads back as its converted value
     and every other field is untouched.
     */
    method AssignValues(d: Dialect, lib: Library, values: map<string, Raw>) returns (ok: bool)
      requires Valid()
      modifies secretValues, publicValues
      ensures ok <==> Assignable(d, lib, fields, values)
      ensures ok ==> forall name | name in Names(fields) ::
                       FieldVariable(name) == if name in values then Some(Converted(d, lib, fields, values, name))
                                              else old(FieldVariable(name))
      ensures ok && DistinctNames(fields) ==>
                forall i | 0 <= i < |fields| && fields[i].name in values ::
                  && FieldVariable(fields[i].name).Some?
                  && Becomes(d, lib, fields[i].kind, values[fields[i].name], FieldVariable(fields[i].name).value)
    {
      hide Becomes;
      hide Convert, ByName, LayoutOf, FieldVariable, FoldsToString;
      ByNameKeys(fields);
      ghost var was := Snapshot();
      var remaining := values.Keys;
      while remaining != {}
        invariant remaining <= values.Keys
        invariant AllConvertible(d, lib, values, values.Keys - remaining)
        invariant Assigned(d, lib, values, values.Keys - remaining, was)
      {
        var name :| name in remaining;
        if name !in meta { assert !Convertible(d, lib, meta, values, name); return false; }
        var variable := Convert(d, lib, meta[name].kind, values[name]);
        if variable == None { assert !Convertible(d, lib, meta, values, name); return false; }
        ghost var done := values.Keys - remaining;
        Store(name, variable.value);
        remaining := remaining - {name};
        assert values.Keys - remaining == done + {name};
      }
      assert values.Keys - {} == values.Keys;
      ok := CheckRequired(fields, values);
      if ok && DistinctNames(fields) {
        forall i | 0 <= i < |fields| && fields[i].name in values
          ensures fields[i].name in Names(fields)
          ensures Becomes(d, lib, fields[i].kind, values[fields[i].name],
              Converted(d, lib, fields, values, fields[i].name))
        {
          AssignedBecomes(d, lib, fields, values, i);
        }
      }
    }

    ghost predicate AllConvertible(d: Dialect, lib: Library, values: map<string, Raw>, done: set<string>)
      requires Valid()
    {
      forall name | name in done :: name in values && Convertible(d, lib, ByName(fields), values, name)
    }

    /** What every field reads as. */
    ghost function Snapshot(): map<string, Option<Variable>>
      requires Valid()
      reads secretValues, publicValues
    {
      map name | name in Names(fields) :: FieldVariable(name)
    }

    /** The names in `done` read as their converted values and the others as they did. */
    ghost predicate Assigned(d: Dialect, lib: Library, values: map<string, Raw>, done: set<string>,
                             was: map<string, Option<Variable>>)
      requires Valid() && AllConvertible(d, lib, values, done) && was.Keys == Names(fields)
      reads secretValues, publicValues
    {
      forall name | name in was ::
        FieldVariable(name) == if name in done then Some(Converted(d, lib, fields, values, name)) else was[name]
    }

    /** Writes one slot and leaves every other field's slot alone. */
    method Store(name: string, v: Variable)
      requires Valid() && name in Names(fields)
      modifies secretValues, publicValues
      ensures FieldVariable(name) == Some(v)
      ensures forall x | x in Names(fields) && x != name :: FieldVariable(x) == old(FieldVariable(x))
    {
      LayoutCovers(fields);
      forall x
        ensures x in layout.secretIndex ==>
                  layout.secretIndex[x] < |layout.secretOrder| && layout.secretOrder[layout.secretIndex[x]] == x
      {
        IndexPointsBack(layout.secretOrder, x);
      }
      forall x
        ensures x in layout.publicIndex ==>
                  layout.publicIndex[x] < |layout.publicOrder| && layout.publicOrder[layout.publicIndex[x]] == x
      {
        IndexPointsBack(layout.publicOrder, x);
      }
      if name in layout.secretIndex {
        secretValues[layout.secretIndex[name]] := Some(v);
      } else {
        publicValues[layout.publicIndex[name]] := Some(v);
      }
    }
  }

  /** The loop that looks for a required field nobody assigned. */
  method CheckRequired(fields: seq<FieldDef>, values: map<string, Raw>) returns (ok: bool)
    ensures ok <==> forall i | 0 <= i < |fields| :: fields[i].required ==> fields[i].name in values
  {
    for i := 0 to |fields|
      invariant forall j | 0 <= j < i :: fields[j].required ==> fields[j].name in values
    {
      if fields[i].required && fields[i].name !in values { return false; }
    }
    return true;
  }

  /** Every field has a slot, so `AssignValues` never reports a field without a circuit input. */
  lemma LayoutCovers(fields: seq<FieldDef>)
    ensures forall x | x in Names(fields) :: x in LayoutOf(fields).secretIndex || x in LayoutOf(fields).publicIndex
  {
    FieldOrderListsVisibility(fields, false);
    FieldOrderListsVisibility(fields, true);
    forall x | x in Names(fields) ensures x in LayoutOf(fields).secretIndex || x in LayoutOf(fields).publicIndex {
      var i :| 0 <= i < |fields| && fields[i].name == x;
      IndexPointsBack(FieldOrder(fields, false), x);
      IndexPointsBack(FieldOrder(fields, true), x);
    }
  }

  /** The loops of `NewDynamicCircuit` that number the names of an order. */
  method FillIndex(order: seq<string>) returns (index: map<string, nat>)
    ensures index == IndexOf(order)
  {
    index := map[];
    for i := 0 to |order|
      invariant index == IndexOf(order[..i])
    {
      assert order[..i + 1][..i] == order[..i];
      index := index[order[i] := i];
    }
    assert order[..|order|] == order;
  }
}
