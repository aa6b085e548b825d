/**
 How the wallet fills a schema's fields from its credentials, and how that feeds
 `AssignValues`.
 */
module WalletAssignment {
  import opened Wrappers
  import opened Schema
  import opened Values
  import opened Circuit
  import opened Prover

  type Claims = map<string, Json>

  // ----- finding one field in one credential -----

  /** `strings.Split(s, ".")`. */
  function SplitDots(s: string): (parts: seq<string>)
    ensures parts != []
  {
    if s == "" then [""]
    else
      var rest := SplitDots(s[1..]);
      if s[0] == '.' then [""] + rest else [[s[0]] + rest[0]] + rest[1..]
  }

  function Walk(cur: Json, parts: seq<string>): Option<Json> {
    if parts == [] then Some(cur)
    else if !cur.JObject? || parts[0] !in cur.members then None
    else Walk(cur.members[parts[0]], parts[1..])
  }

  method GetByPath(m: Claims, path: string) returns (v: Option<Json>)
    ensures v == Walk(JObject(m), SplitDots(path))
  {
    var parts := SplitDots(path);
    var cur := JObject(m);
    for i := 0 to |parts|
      invariant Walk(JObject(m), parts) == Walk(cur, parts[i..])
    {
      assert parts[i..][1..] == parts[i + 1..];
      if !cur.JObject? { return None; }
      if parts[i] !in cur.members { return None; }
      cur := cur.members[parts[i]];
    }
    return Some(cur);
  }

  /** `vc.credentialSubject`, when it is an object. */
  function CredentialSubject(claims: Claims): Option<Claims> {
    if "vc" !in claims || !claims["vc"].JObject? then None
    else
      var vc := claims["vc"].members;
      if "credentialSubject" !in vc || !vc["credentialSubject"].JObject? then None
      else Some(vc["credentialSubject"].members)
  }

  /** Top level first, then the credential subject, then the dotted path. */
  function Resolve(claims: Claims, name: string): Option<Json> {
    if name in claims then Some(claims[name])
    else
      var cs := CredentialSubject(claims);
      if cs.Some? && name in cs.value then Some(cs.value[name])
      else Walk(JObject(claims), SplitDots(name))
  }

  /** A field name without dots is found at the top level or in the subject, never by the path. */
  lemma {:induction false} PathNeedsDots(claims: Claims, name: string)
    requires '.' !in name && name !in claims
    ensures Walk(JObject(claims), SplitDots(name)) == None
  {
    NoDotsNoSplit(name);
  }

  lemma {:induction false} NoDotsNoSplit(s: string)
    requires '.' !in s
    ensures SplitDots(s) == [s]
  {
    if s != "" {
      NoDotsNoSplit(s[1..]);
      assert s == [s[0]] + s[1..];
    }
  }

  // ----- the nested loops -----

  predicate FromDescriptor(name: string) { name == "aud" || name == "nonce" }

  function AfterField(a: map<string, Json>, claims: Claims, name: string): map<string, Json> {
    if FromDescriptor(name) || name in a then a
    else match Resolve(claims, name)
      case Some(v) => a[name := v]
      case None => a
  }

  function AfterFields(a: map<string, Json>, claims: Claims, fields: seq<FieldDef>): map<string, Json> {
    if fields == [] then a
    else var n := |fields| - 1; AfterField(AfterFields(a, claims, fields[..n]), claims, fields[n].name)
  }

  /** `None` is a stored credential that does not parse. */
  function AfterCredentials(creds: seq<Option<Claims>>, fields: seq<FieldDef>): map<string, Json> {
    if creds == [] then map[]
    else
      var n := |creds| - 1;
      var before := AfterCredentials(creds[..n], fields);
      if creds[n] == None then before else AfterFields(before, creds[n].value, fields)
  }

  function Assignments(
      creds: seq<Option<Claims>>, fields: seq<FieldDef>, audience: string, nonce: string): map<string, Json> {
    var a := AfterCredentials(creds, fields);
    var b := if "aud" in ByName(fields) && audience != "" then a["aud" := JString(audience)] else a;
    if "nonce" in ByName(fields) && nonce != "" then b["nonce" := JString(nonce)] else b
  }

  method ProcessCredential(a: map<string, Json>, claims: Claims, fields: seq<FieldDef>) returns (r: map<string, Json>)
    ensures r == AfterFields(a, claims, fields)
  {
    r := a;
    var cs := CredentialSubject(claims);
    for i := 0 to |fields|
      invariant r == AfterFields(a, claims, fields[..i])
    {
      assert fields[..i + 1][..i] == fields[..i];
      var name := fields[i].name;
      if name == "aud" || name == "nonce" { continue; }
      if name in r { continue; }
      if name in claims {
        r := r[name := claims[name]];
        continue;
      }
      if cs.Some? && name in cs.value {
        r := r[name := cs.value[name]];
        continue;
      }
      var v := GetByPath(claims, name);
      if v.Some? { r := r[name := v.value]; }
    }
    assert fields[..|fields|] == fields;
  }

  method BuildAssignments(creds: seq<Option<Claims>>, fields: seq<FieldDef>, audience: string, nonce: string)
    returns (a: map<string, Json>)
    ensures a == Assignments(creds, fields, audience, nonce)
  {
    a := map[];
    for i := 0 to |creds|
      invariant a == AfterCredentials(creds[..i], fields)
    {
      assert creds[..i + 1][..i] == creds[..i];
      if creds[i] == None { continue; }
      a := ProcessCredential(a, creds[i].value, fields);
    }
    assert creds[..|creds|] == creds;
    if "aud" in ByName(fields) && audience != "" { a := a["aud" := JString(audience)]; }
    if "nonce" in ByName(fields) && nonce != "" { a := a["nonce" := JString(nonce)]; }
  }

  /** The schema fields nobody filled, apart from the two the descriptor gives. */
  predicate Unfilled(a: map<string, Json>, name: string) { !FromDescriptor(name) && name !in a }

  method MissingFields(a: map<string, Json>, fields: seq<FieldDef>) returns (missing: seq<string>)
    ensures forall x :: x in missing <==> exists i :: 0 <= i < |fields| && fields[i].name == x && Unfilled(a, x)
    ensures forall x :: x in missing <==>
                        x in Names(fields) && x != "aud" && x != "nonce" && x !in a
  {
    missing := [];
    for i := 0 to |fields|
      invariant forall x :: x in missing <==> exists k :: 0 <= k < i && fields[k].name == x && Unfilled(a, x)
    {
      var name := fields[i].name;
      if name == "aud" || name == "nonce" { continue; }
      if name !in a { missing := missing + [name]; }
    }
  }

  function PublicInputsOf(a: map<string, Json>, fields: seq<FieldDef>): map<string, Json> {
    if fields == [] then map[]
    else
      var n := |fields| - 1;
      var before := PublicInputsOf(a, fields[..n]);
      if fields[n].isPublic && fields[n].name in a then before[fields[n].name := a[fields[n].name]] else before
  }

  method PublicInputs(a: map<string, Json>, fields: seq<FieldDef>) returns (inputs: map<string, Json>)
    ensures inputs == PublicInputsOf(a, fields)
  {
    inputs := map[];
    for i := 0 to |fields|
      invariant inputs == PublicInputsOf(a, fields[..i])
    {
      assert fields[..i + 1][..i] == fields[..i];
      if !fields[i].isPublic { continue; }
      if fields[i].name in a { inputs := inputs[fields[i].name := a[fields[i].name]]; }
    }
    assert fields[..|fields|] == fields;
  }

  // ----- what the loops compute -----

  /** The first credential that knows the field decides its value. */
  function FirstHit(creds: seq<Option<Claims>>, name: string): Option<Json> {
    if creds == [] then None
    else if creds[0].Some? && Resolve(creds[0].value, name).Some? then Resolve(creds[0].value, name)
    else FirstHit(creds[1..], name)
  }

  /** The value a field gets, read off the schema, the credentials and the descriptor. */
  function Expected(
      creds: seq<Option<Claims>>, fields: seq<FieldDef>, audience: string, nonce: string,
      name: string): Option<Json> {
    if name !in ByName(fields) then None
    else if name == "aud" then if audience != "" then Some(JString(audience)) else None
    else if name == "nonce" then if nonce != "" then Some(JString(nonce)) else None
    else FirstHit(creds, name)
  }

  function Lookup(a: map<string, Json>, name: string): Option<Json> {
    if name in a then Some(a[name]) else None
  }

  lemma {:induction false} AfterFieldsLookup(a: map<string, Json>, claims: Claims, fields: seq<FieldDef>, name: string)
    ensures Lookup(AfterFields(a, claims, fields), name) ==
            if name in a || FromDescriptor(name) || name !in Names(fields) then Lookup(a, name)
                else Resolve(claims, name)
  {
    if fields != [] {
      var n := |fields| - 1;
      AfterFieldsLookup(a, claims, fields[..n], name);
      NamesStep(fields, n);
      assert fields[..n + 1] == fields;
      hide Resolve;
    }
  }

  lemma {:induction false} FirstHitAppend(creds: seq<Option<Claims>>, c: Option<Claims>, name: string)
    ensures FirstHit(creds + [c], name) ==
            if FirstHit(creds, name).Some? then FirstHit(creds, name)
            else if c.Some? then Resolve(c.value, name) else None
  {
    hide Resolve;
    if creds == [] {
      assert [] + [c] == [c] && [c][1..] == [];
    } else {
      assert (creds + [c])[1..] == creds[1..] + [c];
      FirstHitAppend(creds[1..], c, name);
    }
  }

  lemma {:induction false} AfterCredentialsLookup(creds: seq<Option<Claims>>, fields: seq<FieldDef>, name: string)
    ensures Lookup(AfterCredentials(creds, fields), name) ==
            if FromDescriptor(name) || name !in Names(fields) then None else FirstHit(creds, name)
  {
    hide Resolve, AfterFields, Names, FirstHit;
    if creds == [] {
      EmptyHasNoHit(name);
    } else {
      var n := |creds| - 1;
      AfterCredentialsLookup(creds[..n], fields, name);
      FirstHitAppend(creds[..n], creds[n], name);
      assert creds[..n] + [creds[n]] == creds;
      if creds[n].Some? { AfterFieldsLookup(AfterCredentials(creds[..n], fields), creds[n].value, fields, name); }
    }
  }

  lemma EmptyHasNoHit(name: string)
    ensures FirstHit([], name) == None
  {
  }

  /** The nested loops give every field the first credential's value, and nothing to other names. */
  lemma AssignmentsAreFirstHits(
      creds: seq<Option<Claims>>, fields: seq<FieldDef>, audience: string, nonce: string, name: string)
    ensures Lookup(Assignments(creds, fields, audience, nonce), name) == Expected(creds, fields, audience, nonce, name)
  {
    ByNameKeys(fields);
    AfterCredentialsLookup(creds, fields, name);
    hide FirstHit, AfterCredentials, ByName, Names;
  }

  /**
   Once no field is missing, the assigned names are exactly the schema's field
   names iff the descriptor gives what the schema asks of it.
   */
  lemma CompleteKeys(creds: seq<Option<Claims>>, fields: seq<FieldDef>, audience: string, nonce: string)
    requires forall i | 0 <= i < |fields| :: !Unfilled(Assignments(creds, fields, audience, nonce), fields[i].name)
    ensures Assignments(creds, fields, audience, nonce).Keys == Names(fields) <==>
            ("aud" in Names(fields) ==> audience != "") && ("nonce" in Names(fields) ==> nonce != "")
  {
    hide Assignments, FirstHit;
    var a := Assignments(creds, fields, audience, nonce);
    ByNameKeys(fields);
    AssignmentsAreFirstHits(creds, fields, audience, nonce, "aud");
    AssignmentsAreFirstHits(creds, fields, audience, nonce, "nonce");
    forall x | x in a ensures x in Names(fields) {
      AssignmentsAreFirstHits(creds, fields, audience, nonce, x);
    }
    forall x | x in Names(fields) && !FromDescriptor(x) ensures x in a {
      var i :| 0 <= i < |fields| && fields[i].name == x;
    }
  }

  /** `encoding/json` hands a claim to Go as one of these. */
  function RawClaim(j: Json): Raw {
    match j
    case JNull => RNil
    case JBool(b) => RBool(b)
    case JNumber(_, r) => RFloat(r)
    case JString(s) => RStr(s)
    case _ => ROther(j)
  }

  function RawAssignments(a: map<string, Json>): map<string, Raw> {
    map name | name in a :: RawClaim(a[name])
  }

  /**
   With the field names as keys, `AssignValues` can only fail on a value it cannot
   convert: the errors for unknown and for missing required fields are unreachable.
   */
  lemma OnlyConversionCanFail(lib: Library, fields: seq<FieldDef>, a: map<string, Json>)
    requires a.Keys == Names(fields)
    ensures var hashed := PreHashed(lib, ByName(fields), RawAssignments(a));
            Assignable(Timestamped, lib, fields, hashed) <==>
            forall name | name in hashed :: name in ByName(fields)
                && Convert(Timestamped, lib, ByName(fields)[name].kind, hashed[name]).Some?
  {
    ByNameKeys(fields);
    var hashed := PreHashed(lib, ByName(fields), RawAssignments(a));
    hide Convert, PreHash;
    assert forall i | 0 <= i < |fields| :: fields[i].name in hashed by {
      forall i | 0 <= i < |fields| ensures fields[i].name in hashed { assert fields[i].name in Names(fields); }
    }
    forall name | name in hashed
      ensures Convertible(Timestamped, lib, ByName(fields), hashed, name) <==>
              name in ByName(fields) && Convert(Timestamped, lib, ByName(fields)[name].kind, hashed[name]).Some?
    {
    }
  }

  // ----- independence -----

  predicate IsPublic(fields: seq<FieldDef>, name: string) {
    exists i :: 0 <= i < |fields| && fields[i].name == name && fields[i].isPublic
  }

  /** The public inputs hold the public fields that are assigned, with their values, and nothing else. */
  lemma {:induction false} PublicInputsLookup(a: map<string, Json>, fields: seq<FieldDef>, name: string)
    ensures Lookup(PublicInputsOf(a, fields), name) == if IsPublic(fields, name) then Lookup(a, name) else None
  {
    if fields != [] {
      var n := |fields| - 1;
      PublicInputsLookup(a, fields[..n], name);
      if IsPublic(fields[..n], name) {
        var i :| 0 <= i < n && fields[..n][i].name == name && fields[..n][i].isPublic;
        assert fields[i].name == name && fields[i].isPublic;
      }
      if IsPublic(fields, name) && !(fields[n].name == name && fields[n].isPublic) {
        var i :| 0 <= i < |fields| && fields[i].name == name && fields[i].isPublic;
        assert fields[..n][i].name == name;
      }
    }
  }

  /** The public inputs depend only on what is assigned to public fields. */
  lemma {:induction false} PublicInputsIgnoreSecrets(a: map<string, Json>, b: map<string, Json>, fields: seq<FieldDef>)
    requires forall i | 0 <= i < |fields| ::
               fields[i].isPublic ==> Lookup(a, fields[i].name) == Lookup(b, fields[i].name)
    ensures PublicInputsOf(a, fields) == PublicInputsOf(b, fields)
  {
    if fields != [] {
      var n := |fields| - 1;
      PublicInputsIgnoreSecrets(a, b, fields[..n]);
      assert fields[n].isPublic ==> Lookup(a, fields[n].name) == Lookup(b, fields[n].name);
    }
  }

  /** Credentials that agree wherever two of them know the same name. */
  ghost predicate Agree(creds: seq<Option<Claims>>) {
    forall c, d, name | c in creds && d in creds && Knows(c, name) && Knows(d, name)
        :: Resolve(c.value, name) == Resolve(d.value, name)
  }

  predicate Knows(c: Option<Claims>, name: string) { c.Some? && Resolve(c.value, name).Some? }

  lemma {:induction false} FirstHitIsAnyHit(creds: seq<Option<Claims>>, name: string)
    ensures FirstHit(creds, name).Some? ==>
              exists c :: c in creds && Knows(c, name) && Resolve(c.value, name) == FirstHit(creds, name)
    ensures (exists c :: c in creds && Knows(c, name)) ==> FirstHit(creds, name).Some?
  {
    hide Resolve;
    if creds != [] {
      FirstHitIsAnyHit(creds[1..], name);
      if !Knows(creds[0], name) {
        if FirstHit(creds[1..], name).Some? {
          var c :| c in creds[1..] && Knows(c, name) && Resolve(c.value, name) == FirstHit(creds[1..], name);
          assert c in creds;
        }
        if c :| c in creds && Knows(c, name) {
          assert creds == [creds[0]] + creds[1..];
          assert c in creds[1..];
        }
      } else {
        assert creds[0] in creds;
      }
    }
  }

  /** When the credentials agree, their order does not matter. */
  lemma OrderDoesNotMatter(
      creds: seq<Option<Claims>>, other: seq<Option<Claims>>, fields: seq<FieldDef>, audience: string, nonce: string)
    requires multiset(creds) == multiset(other) && Agree(creds)
    ensures Assignments(creds, fields, audience, nonce) == Assignments(other, fields, audience, nonce)
  {
    hide Assignments, FirstHit, Resolve;
    forall name
      ensures Lookup(Assignments(creds, fields, audience, nonce), name) ==
          Lookup(Assignments(other, fields, audience, nonce), name)
    {
      AssignmentsAreFirstHits(creds, fields, audience, nonce, name);
      AssignmentsAreFirstHits(other, fields, audience, nonce, name);
      SameHit(creds, other, name);
    }
    SameLookups(Assignments(creds, fields, audience, nonce), Assignments(other, fields, audience, nonce));
  }

  lemma SameLookups(a: map<string, Json>, b: map<string, Json>)
    requires forall name :: Lookup(a, name) == Lookup(b, name)
    ensures a == b
  {
    forall name | name in a ensures name in b && b[name] == a[name] { assert Lookup(a, name) == Lookup(b, name); }
    forall name | name in b ensures name in a { assert Lookup(a, name) == Lookup(b, name); }
  }

  lemma SameHit(creds: seq<Option<Claims>>, other: seq<Option<Claims>>, name: string)
    requires multiset(creds) == multiset(other) && Agree(creds)
    ensures FirstHit(creds, name) == FirstHit(other, name)
  {
    hide Resolve, FirstHit;
    FirstHitIsAnyHit(creds, name);
    FirstHitIsAnyHit(other, name);
    forall c ensures c in creds <==> c in other {
      assert c in creds <==> c in multiset(creds);
      assert c in other <==> c in multiset(other);
    }
    if FirstHit(creds, name).Some? {
      var c :| c in creds && Knows(c, name) && Resolve(c.value, name) == FirstHit(creds, name);
      assert c in other;
      var d :| d in other && Knows(d, name) && Resolve(d.value, name) == FirstHit(other, name);
      assert d in creds;
    }
  }
}
