/**
 The wallet and the request service together: when the public inputs the wallet
 submits pass the service's audience and nonce tests.
 */
module Echo {
  import opened Wrappers
  import opened Schema
  import opened Values
  import opened Strings
  import opened UrlNormalizer
  import opened WalletAssignment
  import Requests

  /** What the wallet fills in, given the service's audience and the request's nonce by the descriptor. */
  function Filled(
      creds: seq<Option<Claims>>, fields: seq<FieldDef>, audience: string, nonce: string): map<string, Json> {
    Assignments(creds, fields, Normalize(audience), nonce)
  }

  /** The submitted public inputs as the service prints them. */
  function Submitted(lib: Library, a: map<string, Json>, fields: seq<FieldDef>): map<string, string> {
    var inputs := PublicInputsOf(a, fields);
    map name | name in inputs :: Sprint(lib, RawClaim(inputs[name]))
  }

  predicate NoPublicField(a: map<string, Json>, fields: seq<FieldDef>) {
    forall i | 0 <= i < |fields| :: fields[i].isPublic ==> fields[i].name !in a
  }

  lemma NothingSubmitted(lib: Library, a: map<string, Json>, fields: seq<FieldDef>)
    ensures Submitted(lib, a, fields) == map[] <==> NoPublicField(a, fields)
  {
    var inputs := PublicInputsOf(a, fields);
    hide Sprint, PublicInputsOf;
    if NoPublicField(a, fields) {
      forall name ensures name !in inputs { PublicInputsLookup(a, fields, name); }
    } else {
      var i :| 0 <= i < |fields| && fields[i].isPublic && fields[i].name in a;
      PublicInputsLookup(a, fields, fields[i].name);
      assert fields[i].name in Submitted(lib, a, fields);
    }
  }

  lemma SubmittedText(lib: Library, a: map<string, Json>, fields: seq<FieldDef>, name: string, text: string)
    requires Lookup(a, name) in {None, Some(JString(text))}
    ensures Requests.Printed(Submitted(lib, a, fields), name) ==
            if IsPublic(fields, name) && Lookup(a, name).Some? then text else "<nil>"
  {
    PublicInputsLookup(a, fields, name);
    hide PublicInputsOf, IsPublic;
  }

  lemma PublicIsNamed(fields: seq<FieldDef>, name: string)
    requires IsPublic(fields, name)
    ensures name in ByName(fields)
  {
    ByNameKeys(fields);
  }

  /**
   The service accepts the echo of the wallet exactly when the wallet submits no
   public input at all, or the schema makes both "aud" and "nonce" public and
   the URL clean-up leaves the audience alone.
   */
  lemma EchoPassesIff(lib: Library, creds: seq<Option<Claims>>, fields: seq<FieldDef>, audience: string, nonce: string)
    requires audience !in {"", "<nil>"} && nonce !in {"", "<nil>"}
    ensures var a := Filled(creds, fields, audience, nonce);
            Requests.EchoObjection(audience, nonce, Submitted(lib, a, fields)) == None <==>
            || NoPublicField(a, fields)
            || (IsPublic(fields, "aud") && IsPublic(fields, "nonce") && Normalize(audience) == audience)
  {
    var a := Filled(creds, fields, audience, nonce);
    AssignmentsAreFirstHits(creds, fields, Normalize(audience), nonce, "aud");
    AssignmentsAreFirstHits(creds, fields, Normalize(audience), nonce, "nonce");
    if IsPublic(fields, "aud") { PublicIsNamed(fields, "aud"); }
    if IsPublic(fields, "nonce") { PublicIsNamed(fields, "nonce"); }
    hide Assignments, FirstHit, Normalize, IsPublic;
    NothingSubmitted(lib, a, fields);
    SubmittedText(lib, a, fields, "aud", Normalize(audience));
    SubmittedText(lib, a, fields, "nonce", nonce);
    hide Submitted, Lookup, NoPublicField;
  }

  /** For the API server's own audience, the second case asks that the host has no "//". */
  lemma ServerEchoPassesIff(
      lib: Library, creds: seq<Option<Claims>>, fields: seq<FieldDef>, host: string, nonce: string)
    requires nonce !in {"", "<nil>"}
    ensures var a := Filled(creds, fields, Audience(host), nonce);
            Requests.EchoObjection(Audience(host), nonce, Submitted(lib, a, fields)) == None <==>
            || NoPublicField(a, fields)
            || (IsPublic(fields, "aud") && IsPublic(fields, "nonce") && !Contains(host, SLASHES))
  {
    AudienceIsEchoed(host);
    assert Audience(host)[0] == 'h';
    hide *;
    EchoPassesIff(lib, creds, fields, Audience(host), nonce);
  }
}
