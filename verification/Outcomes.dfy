/**
 What each call of the presentation service answers and leaves behind, written out in
 terms of the stored request, the clock and the submission.
 */
module Outcomes {
  import opened Wrappers
  import opened Requests

  /** A request is stored and has not passed its expiry second. */
  predicate Live(s: State, id: string) {
    id in s.store && s.now / 1_000_000_000 <= s.store[id].expiresAt
  }

  /** The value sent under a key, or what a missing value prints as. */
  function Sent(inputs: map<string, string>, key: string): string {
    if key in inputs then inputs[key] else "<nil>"
  }

  /** No public inputs, or ones that name this service and this request's nonce. */
  predicate Echoes(audience: string, nonce: string, inputs: map<string, string>) {
    inputs == map[] || (Sent(inputs, "aud") == audience && Sent(inputs, "nonce") == nonce && nonce != "")
  }

  /** The blob decodes to a package that the key cached for the hash accepts. */
  ghost predicate Proves(o: Oracle, vk: map<string, string>, hash: string, blob: string) {
    exists raw, pkg ::
      && o.base64(blob) == Some(raw) && o.package(raw) == Some(pkg)
      && hash in vk && vk[hash] != "" && o.readable(vk[hash]) && o.accepts(vk[hash], pkg)
  }

  /** What a submission must be to succeed. */
  ghost predicate Deserves(o: Oracle, s: State, sub: Submission) {
    && sub.id != "" && sub.blob != "" && Live(s, sub.id)
    && Echoes(s.audience, s.store[sub.id].nonce, sub.inputs)
    && Proves(o, s.vk, s.store[sub.id].schemaHash, sub.blob)
  }

  lemma NoObjectionIff(o: Oracle, s: State, req: Request, sub: Submission)
    ensures Objection(o, s, req, sub) == None <==>
            Echoes(s.audience, req.nonce, sub.inputs) && Proves(o, s.vk, req.schemaHash, sub.blob)
  {
    EchoIff(s.audience, req.nonce, sub.inputs);
    hide EchoObjection, Echoes;
    if Objection(o, s, req, sub) == None {
      var raw := o.base64(sub.blob).value;
      assert o.package(raw).Some?;
    }
  }

  lemma EchoIff(audience: string, nonce: string, inputs: map<string, string>)
    ensures EchoObjection(audience, nonce, inputs) == None <==> Echoes(audience, nonce, inputs)
  {
  }

  /** A submission succeeds exactly when it deserves to, and is logged with the proof it gave. */
  lemma SucceedsIff(o: Oracle, s: State, sub: Submission)
    requires sub.id in s.store ==> s.store[sub.id].id == sub.id
    ensures |AfterVerify(o, s, sub).log| > |s.log| <==> Deserves(o, s, sub)
  {
    if sub.id in s.store {
      NoObjectionIff(o, s, s.store[sub.id], sub);
      if Objection(o, s, s.store[sub.id], sub) == None { AcceptedProof(o, s, s.store[sub.id], sub); }
    }
    hide Objection, Echoes, Proves, ProofOf;
  }

  /** What a recorded verdict is and the timer it starts, 900 seconds ahead. */
  predicate Recorded(s: State, t: State, id: string, v: Verdict) {
    && t.verdicts == s.verdicts[id := v]
    && t.timers == s.timers + multiset{Timer(id, s.now + 900_000_000_000)}
  }

  /** Nothing but store, verdicts, timers and history changes. */
  predicate KeepsRest(s: State, t: State) {
    t.now == s.now && t.audience == s.audience && t.ttl == s.ttl && t.vk == s.vk && t.created == s.created
  }

  /**
   All outcomes of a submission: nothing happens to an unknown request; an expired one
   is consumed as failed; a live one stays, with a failed verdict, unless the
   submission deserves success, which consumes it.
   */
  lemma VerifyOutcome(o: Oracle, s: State, sub: Submission)
    requires sub.id in s.store ==> s.store[sub.id].id == sub.id
    ensures var t := AfterVerify(o, s, sub);
            && KeepsRest(s, t)
            && (sub.id == "" || sub.blob == "" || sub.id !in s.store ==> t == s)
            && (sub.id != "" && sub.blob != "" && sub.id in s.store ==>
                  if !Live(s, sub.id) then
                    && t.store == s.store - {sub.id} && t.log == s.log
                    && Recorded(s, t, sub.id, Verdict(false, "request expired", "failed", None))
                  else if Deserves(o, s, sub) then
                    && t.store == s.store - {sub.id}
                    && Recorded(s, t, sub.id, Verdict(true, "", "verified", Some(s.now)))
                  else
                    && t.store == s.store && t.log == s.log
                    && Recorded(s, t, sub.id, Verdict(false, Refusal(o, s, sub), "failed", None)))
  {
    if sub.id != "" && sub.blob != "" && sub.id in s.store && Unix(s.now) <= s.store[sub.id].expiresAt {
      NoObjectionIff(o, s, s.store[sub.id], sub);
      LiveOutcome(o, s, sub);
    }
    hide Objection, Echoes, Proves, ProofOf, Refusal, Failed, Succeeded;
    ExpiredOutcome(o, s, sub);
    hide AfterVerify, Recorded, KeepsRest;
  }

  lemma FailedIs(s: State, id: string, reason: string)
    ensures var t := Failed(s, id, reason);
            && KeepsRest(s, t) && t.store == s.store && t.log == s.log && id in t.firstSet
            && s.firstSet.Keys <= t.firstSet.Keys
            && Recorded(s, t, id, Verdict(false, reason, "failed", None))
  {
  }

  lemma SucceededIs(s: State, req: Request, proof: Option<(string, nat)>)
    ensures var t := Succeeded(s, req, proof);
            && KeepsRest(s, t) && t.store == s.store - {req.id} && req.id in t.firstSet
            && s.firstSet.Keys <= t.firstSet.Keys
            && Recorded(s, t, req.id, Verdict(true, "", "verified", Some(s.now)))
  {
  }

  lemma ExpiredOutcome(o: Oracle, s: State, sub: Submission)
    ensures sub.id == "" || sub.blob == "" || sub.id !in s.store ==> AfterVerify(o, s, sub) == s
    ensures sub.id != "" && sub.blob != "" && sub.id in s.store && s.store[sub.id].id == sub.id
            && Unix(s.now) > s.store[sub.id].expiresAt ==>
              var t := AfterVerify(o, s, sub);
              && KeepsRest(s, t) && t.store == s.store - {sub.id} && t.log == s.log
              && Recorded(s, t, sub.id, Verdict(false, "request expired", "failed", None))
  {
    hide Objection, ProofOf, Failed, Succeeded, Unix;
    if sub.id in s.store { FailedIs(s.(store := s.store - {sub.id}), sub.id, "request expired"); }
  }

  lemma LiveOutcome(o: Oracle, s: State, sub: Submission)
    requires sub.id != "" && sub.blob != "" && sub.id in s.store && s.store[sub.id].id == sub.id
    requires Unix(s.now) <= s.store[sub.id].expiresAt
    ensures var t, req := AfterVerify(o, s, sub), s.store[sub.id];
            && KeepsRest(s, t)
            && if Objection(o, s, req, sub) == None then
                 && t.store == s.store - {sub.id}
                 && Recorded(s, t, sub.id, Verdict(true, "", "verified", Some(s.now)))
               else
                 && t.store == s.store && t.log == s.log
                 && Recorded(s, t, sub.id, Verdict(false, Refusal(o, s, sub), "failed", None))
  {
    hide ProofOf, Failed, Succeeded, Unix, Recorded, KeepsRest;
    var req := s.store[sub.id];
    if Objection(o, s, req, sub) == None {
      AcceptedProof(o, s, req, sub);
      SucceededIs(s, req, ProofOf(o, s, req, sub));
    } else {
      RefusalIsObjection(o, s, sub);
      FailedIs(s, sub.id, Refusal(o, s, sub));
    }
    hide Objection, Refusal;
  }

  /** The reason recorded for a live request: the first of these that applies. */
  function Refusal(o: Oracle, s: State, sub: Submission): string
    requires sub.id in s.store
  {
    var req := s.store[sub.id];
    var aud, nonce := Sent(sub.inputs, "aud"), Sent(sub.inputs, "nonce");
    if sub.inputs != map[] && aud != s.audience then "aud mismatch: want=" + s.audience + " got=" + aud
    else if sub.inputs != map[] && (nonce != req.nonce || nonce == "") then
      "nonce mismatch: want=" + req.nonce + " got=" + nonce
    else if o.base64(sub.blob) == None then "invalid zkp_blob_b64"
    else if o.package(o.base64(sub.blob).value) == None then "invalid proof package"
    else if req.schemaHash !in s.vk || s.vk[req.schemaHash] == "" then "server VK not found"
    else if !o.readable(s.vk[req.schemaHash]) then "cannot load server VK"
    else "verify failed"
  }

  lemma RefusalIsObjection(o: Oracle, s: State, sub: Submission)
    requires sub.id in s.store && Objection(o, s, s.store[sub.id], sub).Some?
    ensures Objection(o, s, s.store[sub.id], sub) == Some(Refusal(o, s, sub))
  {
    EchoReason(s.audience, s.store[sub.id].nonce, sub.inputs);
    hide EchoObjection, Printed, Sent;
  }

  lemma EchoReason(audience: string, nonce: string, inputs: map<string, string>)
    ensures var aud, got := Sent(inputs, "aud"), Sent(inputs, "nonce");
            EchoObjection(audience, nonce, inputs) ==
            if inputs != map[] && aud != audience then Some("aud mismatch: want=" + audience + " got=" + aud)
            else if inputs != map[] && (got != nonce || got == "") then
              Some("nonce mismatch: want=" + nonce + " got=" + got)
            else None
  {
    assert "aud" + " mismatch: want=" == "aud mismatch: want=";
    assert "nonce" + " mismatch: want=" == "nonce mismatch: want=";
  }

  /** All outcomes of the development call. */
  lemma MockOutcome(s: State, id: string)
    ensures var t := AfterMock(s, id);
            && KeepsRest(s, t)
            && (id !in s.store ==> t == s)
            && (id in s.store ==>
                  && t.store == s.store - {id}
                  && if Live(s, id) then
                       Recorded(s, t, id, Verdict(true, "", "verified", Some(s.now))) && |t.log| == |s.log| + 1
                     else
                       Recorded(s, t, id, Verdict(false, "request expired", "expired", None)) && t.log == s.log)
  {
    if id in s.store { SucceededIs(s, s.store[id].(id := id), None); }
    assert id in s.store && !Live(s, id) ==> Unix(s.now) > s.store[id].expiresAt;
    hide Succeeded;
  }

  /**
   All outcomes of a creation: the request is stored with its nonce and hash, expires
   TTL seconds later, 300 by default, and its keys are cached.
   */
  lemma CreateOutcome(s: State, c: Creation)
    ensures var t := AfterCreate(s, c);
            var ttl := if s.ttl <= 0 then 300_000_000_000 else s.ttl;
            if c.hash.Some? && (c.hash.value in s.vk || c.setup.Some?) then
              && t.store == s.store[c.id := Request(c.id, c.hash.value, c.nonce, (s.now + ttl) / 1_000_000_000,
                  c.callback)]
              && t.vk == (if c.hash.value in s.vk then s.vk else s.vk[c.hash.value := c.setup.value])
              && t.created == s.created[c.id := s.now]
              && t.verdicts == s.verdicts && t.timers == s.timers && t.log == s.log && t.now == s.now
            else t == s
  {
  }

  // ----- verdicts over runs -----

  /** A verdict says "verified" exactly when it is positive, and only after a logged success. */
  ghost predicate Honest(s: State, id: string) {
    id in s.verdicts ==>
      && (s.verdicts[id].ok <==> s.verdicts[id].state == "verified")
      && (s.verdicts[id].ok <==> exists i :: 0 <= i < |s.log| && s.log[i].id == id)
      && (!s.verdicts[id].ok ==> s.verdicts[id].state in {"failed", "expired"})
  }

  /** A known request without any verdict yet is in the store. */
  predicate Awaited(s: State, id: string) { id in s.created ==> id in s.firstSet || id in s.store }

  lemma LoggedOne(s: State, e: Event, id: string)
    ensures (exists i :: 0 <= i < |s.log + [e]| && (s.log + [e])[i].id == id) <==>
            e.id == id || exists i :: 0 <= i < |s.log| && s.log[i].id == id
  {
    if e.id == id { assert (s.log + [e])[|s.log|].id == id; }
    if i :| 0 <= i < |s.log| && s.log[i].id == id { assert (s.log + [e])[i].id == id; }
  }

  lemma SuccessIsHonest(s: State, t: State, e: Event, id: string, x: string)
    requires Honest(s, id) && t.log == s.log + [e] && e.id == x
    requires t.verdicts == s.verdicts[x := Verdict(true, "", "verified", Some(s.now))]
    ensures Honest(t, id)
  {
    LoggedOne(s, e, id);
  }

  lemma FailureIsHonest(s: State, t: State, id: string, x: string, v: Verdict)
    requires Honest(s, id) && t.log == s.log && t.verdicts == s.verdicts[x := v]
    requires !v.ok && v.state in {"failed", "expired"} && forall i | 0 <= i < |s.log| :: s.log[i].id != x
    ensures Honest(t, id)
  {
    assert "failed"[0] != "verified"[0] && "expired"[0] != "verified"[0];
  }

  lemma StoredHasNoSuccess(o: Oracle, s: State, x: string)
    requires Inv(o, s) && x in s.store
    ensures s.store[x].id == x && forall i | 0 <= i < |s.log| :: s.log[i].id != x
  {
    forall i | 0 <= i < |s.log| ensures s.log[i].id != x { assert EventOk(o, s, s.log[i]); }
  }

  lemma StepIsHonest(o: Oracle, s: State, call: Call, id: string)
    requires Inv(o, s) && Enabled(s, call) && Honest(s, id)
    ensures Honest(Step(o, s, call), id)
  {
    hide Inv;
    var t := Step(o, s, call);
    match call
    case Create(c) => CreateOutcome(s, c); hide AfterCreate;
    case Elapse(d) =>
    case Purge(timer) =>
    case Mock(x) =>
      if x in s.store { StoredHasNoSuccess(o, s, x); MockIsHonest(s, x, id); }
    case Verify(sub) =>
      if sub.id in s.store { StoredHasNoSuccess(o, s, sub.id); VerifyIsHonest(o, s, sub, id); }
  }

  lemma MockIsHonest(s: State, x: string, id: string)
    requires Honest(s, id) && x in s.store && s.store[x].id == x && forall i | 0 <= i < |s.log| :: s.log[i].id != x
    ensures Honest(AfterMock(s, x), id)
  {
    var t := AfterMock(s, x);
    if Unix(s.now) > s.store[x].expiresAt {
      FailureIsHonest(s, t, id, x, Verdict(false, "request expired", "expired", None));
    } else {
      SuccessIsHonest(s, t, t.log[|s.log|], id, x);
    }
  }

  lemma VerifyIsHonest(o: Oracle, s: State, sub: Submission, id: string)
    requires Honest(s, id) && sub.id in s.store && s.store[sub.id].id == sub.id
    requires forall i | 0 <= i < |s.log| :: s.log[i].id != sub.id
    ensures Honest(AfterVerify(o, s, sub), id)
  {
    VerifyOutcome(o, s, sub);
    SucceedsIff(o, s, sub);
    var t := AfterVerify(o, s, sub);
    if sub.id != "" && sub.blob != "" {
      if Deserves(o, s, sub) {
        LogOfSuccess(o, s, sub);
        SuccessIsHonest(s, t, t.log[|s.log|], id, sub.id);
      } else {
        hide AfterVerify, Deserves, Honest, Refusal;
        FailureIsHonest(s, t, id, sub.id, t.verdicts[sub.id]);
      }
    }
  }

  lemma LogOfSuccess(o: Oracle, s: State, sub: Submission)
    requires sub.id in s.store && s.store[sub.id].id == sub.id && |AfterVerify(o, s, sub).log| > |s.log|
    ensures var t := AfterVerify(o, s, sub);
            |t.log| == |s.log| + 1 && t.log == s.log + [t.log[|s.log|]] && t.log[|s.log|].id == sub.id
  {
    hide Objection, ProofOf;
    if sub.id != "" && sub.blob != "" && Objection(o, s, s.store[sub.id], sub) == None {
      AcceptedProof(o, s, s.store[sub.id], sub);
    }
  }

  /** In every run a verdict is "verified" exactly when a success was logged, and otherwise "failed" or "expired". */
  lemma {:induction false} VerdictsAreHonest(o: Oracle, audience: string, ttl: int, calls: seq<Call>, id: string)
    requires Run(o, Init(audience, ttl), calls).Some?
    ensures Honest(Run(o, Init(audience, ttl), calls).value, id)
  {
    hide Step, Enabled, Inv;
    if calls != [] {
      var n := |calls| - 1;
      VerdictsAreHonest(o, audience, ttl, calls[..n], id);
      InvAlways(o, audience, ttl, calls[..n]);
      hide Honest;
      StepIsHonest(o, Run(o, Init(audience, ttl), calls[..n]).value, calls[n], id);
    }
  }

  lemma StepAwaits(o: Oracle, s: State, call: Call, id: string)
    requires Inv(o, s) && Enabled(s, call) && Awaited(s, id)
    ensures Awaited(Step(o, s, call), id)
  {
    match call
    case Create(c) => CreateAwaits(s, c, id);
    case Elapse(d) =>
    case Purge(timer) =>
    case Mock(x) => MockAwaits(s, x, id);
    case Verify(sub) =>
      if sub.id in s.store { StoredHasNoSuccess(o, s, sub.id); }
      VerifyAwaits(o, s, sub, id);
    hide Inv, Awaited, AfterCreate, AfterMock, AfterVerify;
  }

  lemma CreateAwaits(s: State, c: Creation, id: string)
    requires Awaited(s, id)
    ensures Awaited(AfterCreate(s, c), id)
  {
  }

  lemma MockAwaits(s: State, x: string, id: string)
    requires Awaited(s, id)
    ensures Awaited(AfterMock(s, x), id)
  {
    MockOutcome(s, x);
    if x in s.store { MockSetsVerdict(s, x); }
    hide AfterMock, Recorded;
  }

  lemma MockSetsVerdict(s: State, x: string)
    requires x in s.store
    ensures var t := AfterMock(s, x); x in t.firstSet && s.firstSet.Keys <= t.firstSet.Keys
  {
    hide Unix;
  }

  lemma VerifyAwaits(o: Oracle, s: State, sub: Submission, id: string)
    requires Awaited(s, id) && (sub.id in s.store ==> s.store[sub.id].id == sub.id)
    ensures Awaited(AfterVerify(o, s, sub), id)
  {
    if sub.id != "" && sub.blob != "" && sub.id in s.store {
      var req := s.store[sub.id];
      FailedIs(s.(store := s.store - {sub.id}), sub.id, "request expired");
      if Unix(s.now) <= req.expiresAt {
        if Objection(o, s, req, sub) == None {
          AcceptedProof(o, s, req, sub);
          SucceededIs(s, req, ProofOf(o, s, req, sub));
        } else {
          FailedIs(s, sub.id, Objection(o, s, req, sub).value);
        }
      }
    }
    hide Objection, ProofOf, Failed, Succeeded, Unix, Recorded;
  }

  /**
   Until its first verdict a request answers "pending" up to its expiry second and
   "expired" from then on, to both observers; an id nobody created is unknown.
   */
  lemma AnswersBeforeVerdict(o: Oracle, audience: string, ttl: int, calls: seq<Call>, id: string)
    requires Run(o, Init(audience, ttl), calls).Some?
    requires id !in Run(o, Init(audience, ttl), calls).value.firstSet
    ensures var s := Run(o, Init(audience, ttl), calls).value;
            var life := if ttl <= 0 then 300_000_000_000 else ttl;
            if id in s.created then
              ResultOf(s, id) == StatusOf(s, id) ==
              if s.now / 1_000_000_000 <= (s.created[id] + life) / 1_000_000_000 then "pending" else "expired"
            else ResultOf(s, id) == "unknown" && StatusOf(s, id) == "unknown_or_consumed"
  {
    InvAlways(o, audience, ttl, calls);
    AwaitedAlways(o, audience, ttl, calls, id);
    var s := Run(o, Init(audience, ttl), calls).value;
    hide Run, Init, Inv;
    Answers(o, s, id);
  }

  lemma Answers(o: Oracle, s: State, id: string)
    requires Inv(o, s) && Awaited(s, id) && id !in s.firstSet
    ensures var life := if s.ttl <= 0 then 300_000_000_000 else s.ttl;
            if id in s.created then
              ResultOf(s, id) == StatusOf(s, id) ==
              if s.now / 1_000_000_000 <= (s.created[id] + life) / 1_000_000_000 then "pending" else "expired"
            else ResultOf(s, id) == "unknown" && StatusOf(s, id) == "unknown_or_consumed"
  {
    StoredFacts(o, s, id);
    hide Inv;
  }

  lemma StoredFacts(o: Oracle, s: State, id: string)
    requires Inv(o, s)
    ensures id in s.verdicts ==> id in s.firstSet
    ensures id in s.store ==> id in s.created && s.store[id].expiresAt == Unix(s.created[id] + EffectiveTTL(s.ttl))
  {
  }

  lemma {:induction false} AwaitedAlways(o: Oracle, audience: string, ttl: int, calls: seq<Call>, id: string)
    requires Run(o, Init(audience, ttl), calls).Some?
    ensures Awaited(Run(o, Init(audience, ttl), calls).value, id)
  {
    hide Step, Enabled, Inv;
    if calls != [] {
      var n := |calls| - 1;
      AwaitedAlways(o, audience, ttl, calls[..n], id);
      InvAlways(o, audience, ttl, calls[..n]);
      hide Awaited;
      StepAwaits(o, Run(o, Init(audience, ttl), calls[..n]).value, calls[n], id);
    }
  }

  /** After a verdict, while it is kept, `Result` repeats it. */
  lemma AnswersVerdict(s: State, id: string)
    requires id in s.verdicts
    ensures ResultOf(s, id) == s.verdicts[id].state
  {
  }
}
