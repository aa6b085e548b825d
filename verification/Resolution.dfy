/**
 Where in a credential the value of a field is found, written out in terms of the
 credential's members.
 */
module Resolution {
  import opened Wrappers
  import opened Schema
  import opened Circuit
  import opened WalletAssignment
  import opened ScalarField
  import opened Values
  import opened Prover

  /** A member of the credential itself. */
  predicate AtTop(claims: Claims, name: string, v: Json) { name in claims && v == claims[name] }

  /** A member of `vc.credentialSubject`. */
  predicate InSubject(claims: Claims, name: string, v: Json) {
    && "vc" in claims && claims["vc"].JObject?
    && var vc := claims["vc"].members;
       && "credentialSubject" in vc && vc["credentialSubject"].JObject?
       && var subject := vc["credentialSubject"].members;
          name in subject && v == subject[name]
  }

  /** The parts with dots between them. */
  function Joined(parts: seq<string>): string {
    if parts == [] then ""
    else if |parts| == 1 then parts[0]
    else parts[0] + "." + Joined(parts[1..])
  }

  predicate NoDots(parts: seq<string>) { forall i | 0 <= i < |parts| :: '.' !in parts[i] }

  /** Each value on the chain is the member of the one before that the part names. */
  predicate IsChain(parts: seq<string>, chain: seq<Json>) {
    && |chain| == |parts| + 1
    && forall i | 0 <= i < |parts| ::
         chain[i].JObject? && parts[i] in chain[i].members && chain[i + 1] == chain[i].members[parts[i]]
  }

  /** The value that the parts of the name lead to. */
  ghost predicate Along(claims: Claims, name: string, v: Json) {
    exists parts: seq<string>, chain: seq<Json> ::
      && parts != [] && NoDots(parts) && Joined(parts) == name
      && IsChain(parts, chain) && chain[0] == JObject(claims) && chain[|parts|] == v
  }

  /** The value a credential gives a name: its own member, else its subject's, else the one the dots lead to. */
  ghost predicate Gives(claims: Claims, name: string, v: Json) {
    if name in claims then v == claims[name]
    else if exists u :: InSubject(claims, name, u) then InSubject(claims, name, v)
    else Along(claims, name, v)
  }

  // ----- splitting is the inverse of joining -----

  lemma {:induction false} JoinAfterSplit(s: string)
    ensures NoDots(SplitDots(s)) && Joined(SplitDots(s)) == s
  {
    if s != "" {
      JoinAfterSplit(s[1..]);
      var rest := SplitDots(s[1..]);
      assert s == [s[0]] + s[1..];
      if s[0] == '.' {
        assert ([""] + rest)[1..] == rest;
        assert Joined([""] + rest) == "" + "." + Joined(rest);
      } else {
        var first := [s[0]] + rest[0];
        assert ([first] + rest[1..])[1..] == rest[1..];
        forall i | 0 <= i < |rest| ensures '.' !in ([first] + rest[1..])[i] {
          assert '.' !in rest[i];
        }
        JoinFirst(s[0], rest);
      }
    }
  }

  lemma JoinFirst(c: char, rest: seq<string>)
    requires rest != []
    ensures Joined([[c] + rest[0]] + rest[1..]) == [c] + Joined(rest)
  {
    var all := [[c] + rest[0]] + rest[1..];
    assert all[1..] == rest[1..];
    if |rest| > 1 {
      assert [c] + rest[0] + "." + Joined(rest[1..]) == [c] + (rest[0] + "." + Joined(rest[1..]));
    }
  }

  lemma {:induction false} SplitAfterJoin(parts: seq<string>)
    requires parts != [] && NoDots(parts)
    ensures SplitDots(Joined(parts)) == parts
    decreases |parts|, |parts[0]|
  {
    var s := Joined(parts);
    if parts[0] == "" {
      if |parts| == 1 {
        assert s == "";
      } else {
        assert s == "." + Joined(parts[1..]) && s[1..] == Joined(parts[1..]);
        SplitAfterJoin(parts[1..]);
        assert [""] + parts[1..] == parts;
      }
    } else {
      var shorter := [parts[0][1..]] + parts[1..];
      assert shorter[1..] == parts[1..];
      forall i | 0 <= i < |shorter| ensures '.' !in shorter[i] {
        if i == 0 { assert forall c | c in parts[0][1..] :: c in parts[0]; }
      }
      SplitAfterJoin(shorter);
      JoinFirst(parts[0][0], shorter);
      assert [parts[0][0]] + shorter[0] == parts[0];
      assert [[parts[0][0]] + shorter[0]] + shorter[1..] == parts;
      assert s == [parts[0][0]] + Joined(shorter);
      assert s[1..] == Joined(shorter);
      assert parts[0][0] in parts[0];
    }
  }

  lemma {:induction false} WalkIsChain(cur: Json, parts: seq<string>, chain: seq<Json>)
    requires IsChain(parts, chain) && chain[0] == cur
    ensures Walk(cur, parts) == Some(chain[|parts|])
  {
    if parts != [] {
      WalkIsChain(chain[1], parts[1..], chain[1..]);
    }
  }

  lemma {:induction false} WalkHasChain(cur: Json, parts: seq<string>) returns (chain: seq<Json>)
    requires Walk(cur, parts).Some?
    ensures IsChain(parts, chain) && chain[0] == cur && chain[|parts|] == Walk(cur, parts).value
  {
    if parts == [] {
      chain := [cur];
    } else {
      var rest := WalkHasChain(cur.members[parts[0]], parts[1..]);
      chain := [cur] + rest;
      forall i | 0 <= i < |parts|
        ensures chain[i].JObject? && parts[i] in chain[i].members && chain[i + 1] == chain[i].members[parts[i]]
      {
        if i > 0 { assert parts[i] == parts[1..][i - 1] && chain[i] == rest[i - 1]; }
      }
    }
  }

  lemma PathIsAlong(claims: Claims, name: string, v: Json)
    ensures Walk(JObject(claims), SplitDots(name)) == Some(v) <==> Along(claims, name, v)
  {
    if Walk(JObject(claims), SplitDots(name)) == Some(v) {
      JoinAfterSplit(name);
      var chain := WalkHasChain(JObject(claims), SplitDots(name));
    }
    if Along(claims, name, v) {
      var parts: seq<string>, chain: seq<Json> :|
        && parts != [] && NoDots(parts) && Joined(parts) == name
        && IsChain(parts, chain) && chain[0] == JObject(claims) && chain[|parts|] == v;
      SplitAfterJoin(parts);
      WalkIsChain(JObject(claims), parts, chain);
    }
  }

  lemma ResolveGives(claims: Claims, name: string, v: Json)
    ensures Resolve(claims, name) == Some(v) <==> Gives(claims, name, v)
  {
    hide SplitDots, Walk, Along;
    PathIsAlong(claims, name, v);
    var cs := CredentialSubject(claims);
    if cs.Some? && name in cs.value { assert InSubject(claims, name, cs.value[name]); }
  }

  // ----- the assigned value -----

  /** This credential is the first that gives the name a value, and gives it this one. */
  ghost predicate FirstGives(creds: seq<Option<Claims>>, k: nat, name: string, v: Json) {
    && k < |creds| && creds[k].Some? && Gives(creds[k].value, name, v)
    && forall j, u | 0 <= j < k && creds[j].Some? :: !Gives(creds[j].value, name, u)
  }

  lemma {:induction false} FirstHitGives(creds: seq<Option<Claims>>, name: string, v: Json)
    ensures FirstHit(creds, name) == Some(v) <==> exists k :: FirstGives(creds, k, name, v)
  {
    hide Resolve, Gives;
    if creds != [] {
      FirstHitGives(creds[1..], name, v);
      if creds[0].Some? {
        forall u ensures Resolve(creds[0].value, name) == Some(u) <==> Gives(creds[0].value, name, u) {
          ResolveGives(creds[0].value, name, u);
        }
      }
      if k :| FirstGives(creds, k, name, v) {
        if k > 0 { ShiftDown(creds, k, name, v); }
      }
      if k :| FirstGives(creds[1..], k, name, v) {
        if creds[0] == None || Resolve(creds[0].value, name) == None { ShiftUp(creds, k, name, v); }
      }
      if creds[0].Some? && Resolve(creds[0].value, name) == Some(v) { assert FirstGives(creds, 0, name, v); }
    }
  }

  lemma ShiftDown(creds: seq<Option<Claims>>, k: nat, name: string, v: Json)
    requires k > 0 && FirstGives(creds, k, name, v)
    ensures FirstGives(creds[1..], k - 1, name, v)
    ensures creds[0].Some? ==> Resolve(creds[0].value, name) == None
  {
    hide Gives, Resolve;
    if creds[0].Some? && Resolve(creds[0].value, name).Some? {
      ResolveGives(creds[0].value, name, Resolve(creds[0].value, name).value);
    }
  }

  lemma ShiftUp(creds: seq<Option<Claims>>, k: nat, name: string, v: Json)
    requires creds != [] && FirstGives(creds[1..], k, name, v)
    requires creds[0].Some? ==> Resolve(creds[0].value, name) == None
    ensures FirstGives(creds, k + 1, name, v)
  {
    hide Gives, Resolve;
    forall j, u | 0 <= j < k + 1 && creds[j].Some? ensures !Gives(creds[j].value, name, u) {
      if j == 0 { ResolveGives(creds[0].value, name, u); } else { assert creds[j] == creds[1..][j - 1]; }
    }
  }

  /**
   A schema field other than "aud" and "nonce" is assigned a value exactly when some
   credential is the first to give it one, and then that value.
   */
  lemma AssignedIff(
    creds: seq<Option<Claims>>, fields: seq<FieldDef>, audience: string, nonce: string, name: string, v: Json)
    requires name in Names(fields) && name != "aud" && name != "nonce"
    ensures Lookup(Assignments(creds, fields, audience, nonce), name) == Some(v) <==>
            exists k :: FirstGives(creds, k, name, v)
  {
    ByNameKeys(fields);
    AssignmentsAreFirstHits(creds, fields, audience, nonce, name);
    FirstHitGives(creds, name, v);
    hide Assignments, FirstHit, FirstGives;
  }

  /** For a single credential, case by case. */
  lemma OneCredential(
    claims: Claims, fields: seq<FieldDef>, audience: string, nonce: string, name: string, m: Claims, subject: Claims)
    requires name in Names(fields) && name != "aud" && name != "nonce"
    ensures var got := Lookup(Assignments([Some(claims)], fields, audience, nonce), name);
            && (name in claims ==> got == Some(claims[name]))
            && (name !in claims && "vc" in claims && claims["vc"] == JObject(m)
                && "credentialSubject" in m && m["credentialSubject"] == JObject(subject) && name in subject ==>
                  got == Some(subject[name]))
            && (name !in claims && '.' !in name && (forall u :: !InSubject(claims, name, u)) ==> got == None)
            && (name !in claims && (forall u :: !InSubject(claims, name, u)) ==>
                  forall v :: got == Some(v) <==> Along(claims, name, v))
  {
    var got := Lookup(Assignments([Some(claims)], fields, audience, nonce), name);
    forall v ensures got == Some(v) <==> Gives(claims, name, v) {
      AssignedIff([Some(claims)], fields, audience, nonce, name, v);
      OnlyOne(claims, name, v);
    }
    if name in claims { assert Gives(claims, name, claims[name]); }
    if "vc" in claims && claims["vc"] == JObject(m) && "credentialSubject" in m
       && m["credentialSubject"] == JObject(subject) && name in subject
    {
      assert InSubject(claims, name, subject[name]);
      if name !in claims { assert Gives(claims, name, subject[name]); }
    }
    if name !in claims && '.' !in name {
      PathNeedsDots(claims, name);
      if got.Some? { PathIsAlong(claims, name, got.value); }
    }
    hide Assignments, Along;
  }

  lemma OnlyOne(claims: Claims, name: string, v: Json)
    ensures (exists k :: FirstGives([Some(claims)], k, name, v)) <==> Gives(claims, name, v)
  {
    hide Gives;
    if Gives(claims, name, v) { assert FirstGives([Some(claims)], 0, name, v); }
  }

  /** "aud" and "nonce" come from the descriptor alone, when the schema has them and they are not empty. */
  lemma DescriptorValues(creds: seq<Option<Claims>>, fields: seq<FieldDef>, audience: string, nonce: string)
    ensures var a := Assignments(creds, fields, audience, nonce);
            && Lookup(a, "aud") == (if "aud" in Names(fields) && audience != "" then Some(JString(audience)) else None)
            && Lookup(a, "nonce") == (if "nonce" in Names(fields) && nonce != "" then Some(JString(nonce)) else None)
            && forall name | name in a :: name in Names(fields)
  {
    ByNameKeys(fields);
    AssignmentsAreFirstHits(creds, fields, audience, nonce, "aud");
    AssignmentsAreFirstHits(creds, fields, audience, nonce, "nonce");
    forall name | name in Assignments(creds, fields, audience, nonce) ensures name in Names(fields) {
      AssignmentsAreFirstHits(creds, fields, audience, nonce, name);
    }
    hide Assignments, FirstHit;
  }

  // ----- the issuer's own credential -----

  /**
   The claims of the credential that the wallet's issuer signs; `dates` and `about` are
   the times and the descriptive members beside the ones a field is filled from.
   */
  function IssuedClaims(dates: Claims, about: Claims, issuer: string, user: string, birth: Json): Claims {
    dates +
    map["iss" := JString(issuer), "sub" := JString(user),
        "vc" := JObject(about + map["credentialSubject" := JObject(Subject(user, birth))])]
  }

  function Subject(user: string, birth: Json): Claims {
    map["id" := JString(user), "birth_ts" := birth, "university" := JString("AGH")]
  }

  /** Its birth timestamp and university reach the fields of these names. */
  lemma IssuedCredentialFills(
    fields: seq<FieldDef>, audience: string, nonce: string, dates: Claims, about: Claims, issuer: string, user: string,
    birth: Json)
    requires "birth_ts" in Names(fields) && "university" in Names(fields) && dates.Keys <= {"iat", "nbf"}
    ensures var a := Assignments([Some(IssuedClaims(dates, about, issuer, user, birth))], fields, audience, nonce);
            Lookup(a, "birth_ts") == Some(birth) && Lookup(a, "university") == Some(JString("AGH"))
  {
    hide *;
    var claims := IssuedClaims(dates, about, issuer, user, birth);
    var m := about + map["credentialSubject" := JObject(Subject(user, birth))];
    IssuedMembers(dates, about, issuer, user, birth);
    SubjectMembers(user, birth);
    OneCredential(claims, fields, audience, nonce, "birth_ts", m, Subject(user, birth));
    OneCredential(claims, fields, audience, nonce, "university", m, Subject(user, birth));
  }

  lemma IssuedMembers(dates: Claims, about: Claims, issuer: string, user: string, birth: Json)
    requires dates.Keys <= {"iat", "nbf"}
    ensures var claims := IssuedClaims(dates, about, issuer, user, birth);
            && "vc" in claims && "birth_ts" !in claims && "university" !in claims
            && claims["vc"] == JObject(about + map["credentialSubject" := JObject(Subject(user, birth))])
  {
    hide Subject;
    assert "birth_ts"[0] == 'b' && "university"[0] == 'u' && "vc"[0] == 'v' && "iss"[0] == "iat"[0] == 'i';
    assert "sub"[0] == 's' && "nbf"[0] == 'n';
  }

  lemma SubjectMembers(user: string, birth: Json)
    ensures var subject := Subject(user, birth);
            && "birth_ts" in subject && subject["birth_ts"] == birth
            && "university" in subject && subject["university"] == JString("AGH")
  {
    assert "birth_ts"[0] == 'b' && "university"[0] == 'u' && "id"[0] == 'i';
  }

  // ----- from the claim to the circuit -----

  /** The integer that a claim stands for in the circuit, by the type of its field. */
  predicate ClaimHolds(lib: Library, kind: string, claim: Json, z: int) {
    && claim != JNull
    && (kind == "integer" || kind == "number" ==>
          match claim
          case JNumber(_, f) => InRange(f) ==> Truncates(f, z)
          case JString(s) =>
            s != "" && lib.numeral(s).Some? && (InRange(lib.numeral(s).value) ==> Truncates(lib.numeral(s).value, z))
          case _ => false)
    && (kind == "boolean" ==>
          match claim
          case JBool(b) => z == if b then 1 else 0
          case JString(s) => lib.boolean(s).Some? && z == if lib.boolean(s).value then 1 else 0
          case _ => false)
    && (kind == "date" && claim.JString? && lib.timestamp(claim.s).Some? ==> z == lib.timestamp(claim.s).value)
    && (kind == "string" && claim.JString? ==> z == lib.sha256(claim.s))
  }

  /**
   The wallet's assignments, once they are complete, put the integer of its claim into
   the slot of every field whose type the wallet knows.
   */
  lemma ClaimsReachTheCircuit(lib: Library, fields: seq<FieldDef>, a: map<string, Json>, i: nat)
    requires DistinctNames(fields) && Complete(lib, fields, RawAssignments(a)) && i < |fields|
    requires fields[i].kind in {"integer", "number", "boolean", "date", "string"}
    ensures fields[i].name in a && fields[i].name in Integers(lib, fields, RawAssignments(a))
    ensures a[fields[i].name] == JNull ==> fields[i].kind == "string"
    ensures a[fields[i].name] != JNull ==>
              ClaimHolds(lib, fields[i].kind, a[fields[i].name],
                  Integers(lib, fields, RawAssignments(a))[fields[i].name])
  {
    IntegersHold(lib, fields, RawAssignments(a), i);
    hide Complete, Integers, DistinctNames, StandsFor, ClaimHolds, RawClaim;
    var name := fields[i].name;
    assert RawAssignments(a)[name] == RawClaim(a[name]);
    NullHolds(lib, fields[i].kind, a[name], Integers(lib, fields, RawAssignments(a))[name]);
  }

  lemma NullHolds(lib: Library, kind: string, claim: Json, z: int)
    requires StandsFor(lib, kind, RawClaim(claim), z)
    ensures claim == JNull ==> kind == "string"
    ensures claim != JNull ==> ClaimHolds(lib, kind, claim, z)
  {
    hide Truncates, InRange;
  }
}
