/**
 How long a verdict can be read: purge timers of earlier failures of a request keep
 running after its success.
 */
module Retention {
  import opened Wrappers
  import opened Requests

  /** Every verdict has a pending purge timer. */
  lemma VerdictHasTimer(o: Oracle, audience: string, ttl: int, calls: seq<Call>, id: string)
    requires Run(o, Init(audience, ttl), calls).Some?
    requires id in Run(o, Init(audience, ttl), calls).value.verdicts
    ensures exists t :: t in Run(o, Init(audience, ttl), calls).value.timers && t.id == id
  {
    InvAlways(o, audience, ttl, calls);
    var s := Run(o, Init(audience, ttl), calls).value;
    assert VerdictOk(id, true, s.timers, s.firstSet[id], s.lastSet[id], s.now);
    assert Timer(id, s.lastSet[id] + RETENTION) in s.timers;
  }

  /** A verified verdict stays readable until 900 s after the request's first verdict. */
  lemma ReadableUntilFirstTimer(o: Oracle, audience: string, ttl: int, calls: seq<Call>, i: nat)
    requires Run(o, Init(audience, ttl), calls).Some?
    requires i < |Run(o, Init(audience, ttl), calls).value.log|
    ensures var s := Run(o, Init(audience, ttl), calls).value;
            var e := s.log[i];
            && e.id in s.firstSet && s.firstSet[e.id] <= e.at < s.firstSet[e.id] + EffectiveTTL(ttl) + SECOND
            && (s.now < s.firstSet[e.id] + RETENTION ==> ResultOf(s, e.id) == "verified")
  {
    InvAlways(o, audience, ttl, calls);
    var s := Run(o, Init(audience, ttl), calls).value;
    var e := s.log[i];
    assert EventOk(o, s, e);
    assert VerdictOk(e.id, e.id in s.verdicts, s.timers, s.firstSet[e.id], s.lastSet[e.id], s.now);
  }

  /**
   However many failures came first, a verified verdict stays readable for 900 s
   less the TTL and less the second that whole-second expiry adds.
   */
  lemma VerdictRetained(o: Oracle, audience: string, ttl: int, calls: seq<Call>, i: nat)
    requires Run(o, Init(audience, ttl), calls).Some?
    requires i < |Run(o, Init(audience, ttl), calls).value.log|
    ensures var s := Run(o, Init(audience, ttl), calls).value;
            s.now + EffectiveTTL(ttl) + SECOND <= s.log[i].at + RETENTION ==> ResultOf(s, s.log[i].id) == "verified"
  {
    ReadableUntilFirstTimer(o, audience, ttl, calls, i);
  }

  /** A verdict stays readable in every continuation until a time. */
  ghost predicate KeptFor(o: Oracle, s0: State, before: seq<Call>, id: string, until: int) {
    forall after :: Run(o, s0, before + after).Some? && Run(o, s0, before + after).value.now < until ==>
                      id in Run(o, s0, before + after).value.verdicts
  }

  /** The verdict is there, and every pending timer of the request is due at that time or later. */
  predicate Quiet(s: State, id: string, until: int) {
    && id in s.verdicts
    && forall t | t in s.timers :: t.id == id ==> until <= t.due
  }

  /**
   The exact retention of a verified verdict, for every TTL and every time after the
   success: it stays readable until then in every continuation iff it is readable now
   and no timer of an earlier verdict of the request is due before.
   */
  lemma RetentionIsExact(o: Oracle, audience: string, ttl: int, before: seq<Call>, i: nat, until: int)
    requires Run(o, Init(audience, ttl), before).Some?
    requires i < |Run(o, Init(audience, ttl), before).value.log|
    ensures var s := Run(o, Init(audience, ttl), before).value;
            KeptFor(o, Init(audience, ttl), before, s.log[i].id, until) <==>
            until <= s.now || Quiet(s, s.log[i].id, until)
  {
    hide Run, Init;
    var s0 := Init(audience, ttl);
    var s := Run(o, s0, before).value;
    var id := s.log[i].id;
    if until <= s.now || Quiet(s, id, until) {
      forall after | Run(o, s0, before + after).Some? && Run(o, s0, before + after).value.now < until
        ensures id in Run(o, s0, before + after).value.verdicts
      {
        QuietStays(o, audience, ttl, before, after, i, until);
      }
    } else if id !in s.verdicts {
      assert before + [] == before;
    } else {
      var t :| t in s.timers && t.id == id && t.due < until;
      var after := TimerFires(o, s0, before, t);
    }
  }

  /** Nothing sets or purges a verified verdict before its timers. */
  lemma {:induction false} QuietStays(
    o: Oracle, audience: string, ttl: int, before: seq<Call>, after: seq<Call>, i: nat, until: int)
    requires Run(o, Init(audience, ttl), before).Some? && Run(o, Init(audience, ttl), before + after).Some?
    requires i < |Run(o, Init(audience, ttl), before).value.log|
    requires Run(o, Init(audience, ttl), before + after).value.now < until
    requires var s := Run(o, Init(audience, ttl), before).value; until <= s.now || Quiet(s, s.log[i].id, until)
    ensures Quiet(Run(o, Init(audience, ttl), before + after).value,
        Run(o, Init(audience, ttl), before).value.log[i].id, until)
  {
    hide Step, Enabled, Quiet, Inv, Init;
    var s0 := Init(audience, ttl);
    if after == [] {
      assert before + after == before;
    } else {
      var n := |after| - 1;
      assert (before + after)[..|before| + n] == before + after[..n];
      assert (before + after)[|before| + n] == after[n];
      var s := Run(o, s0, before + after[..n]).value;
      assert s.now <= Step(o, s, after[n]).now;
      LogGrows(o, s0, before, after[..n]);
      QuietStays(o, audience, ttl, before, after[..n], i, until);
      InvAlways(o, audience, ttl, before + after[..n]);
      hide Run;
      QuietStep(o, s, after[n], i, until);
    }
  }

  lemma QuietStep(o: Oracle, s: State, call: Call, i: nat, until: int)
    requires Inv(o, s) && Enabled(s, call) && i < |s.log| && Quiet(s, s.log[i].id, until)
    requires Step(o, s, call).now < until
    ensures Quiet(Step(o, s, call), s.log[i].id, until)
  {
    var id := s.log[i].id;
    assert EventOk(o, s, s.log[i]);
    hide Inv, EventOk, StoreOk, TimesOk, TimersOk, VerdictsOk, LogOk, LogDistinct;
    match call
    case Create(c) =>
    case Elapse(d) =>
    case Purge(t) =>
    case Mock(x) => QuietMock(s, x, id, until);
    case Verify(sub) => StoredId(o, s, sub.id); QuietVerify(o, s, sub, id, until);
  }

  lemma StoredId(o: Oracle, s: State, id: string)
    requires Inv(o, s)
    ensures id in s.store ==> s.store[id].id == id
  {
  }

  lemma QuietSet(s: State, x: string, v: Verdict, id: string, until: int)
    requires Quiet(s, id, until) && x != id
    ensures Quiet(SetVerdict(s, x, v), id, until)
  {
    forall t | t in SetVerdict(s, x, v).timers ensures t.id == id ==> until <= t.due {
      assert t in s.timers || t == Timer(x, s.now + RETENTION);
    }
  }

  lemma QuietMock(s: State, x: string, id: string, until: int)
    requires Quiet(s, id, until) && id !in s.store
    ensures Quiet(AfterMock(s, x), id, until)
  {
    hide SetVerdict;
    if x in s.store {
      var t := s.(store := s.store - {x});
      QuietSet(t, x, Verdict(false, "request expired", "expired", None), id, until);
      QuietSet(t, x, Verdict(true, "", "verified", Some(s.now)), id, until);
    }
  }

  lemma QuietVerify(o: Oracle, s: State, sub: Submission, id: string, until: int)
    requires Quiet(s, id, until) && id !in s.store
    requires sub.id in s.store ==> s.store[sub.id].id == sub.id
    ensures Quiet(AfterVerify(o, s, sub), id, until)
  {
    hide SetVerdict, Objection, ProofOf;
    if sub.id in s.store && sub.id != "" && sub.blob != "" {
      var t := s.(store := s.store - {sub.id});
      QuietSet(t, sub.id, Verdict(false, "request expired", "failed", None), id, until);
      QuietSet(t, sub.id, Verdict(true, "", "verified", Some(s.now)), id, until);
      match Objection(o, s, s.store[sub.id], sub)
      case Some(reason) => QuietSet(s, sub.id, Verdict(false, reason, "failed", None), id, until);
      case None => AcceptedProof(o, s, s.store[sub.id], sub);
    }
  }

  /** Any pending timer can be the next thing that happens, and then its verdict is gone. */
  lemma TimerFires(o: Oracle, s0: State, before: seq<Call>, t: Timer) returns (after: seq<Call>)
    requires Run(o, s0, before).Some? && t in Run(o, s0, before).value.timers
    ensures Run(o, s0, before + after).Some?
    ensures var s, n := Run(o, s0, before).value, Run(o, s0, before + after).value;
            t.id !in n.verdicts && n.now == if t.due <= s.now then s.now else t.due
  {
    var s := Run(o, s0, before).value;
    var wait, purge := Elapse(if t.due <= s.now then 0 else t.due - s.now), Purge(t);
    after := [wait, purge];
    RunOneMore(o, s0, before, wait);
    RunOneMore(o, s0, before + [wait], purge);
    assert before + after == before + [wait] + [purge];
    hide Run;
  }

  /**
   The promise of 900 s less the TTL, right after a success and for every TTL that
   leaves a second of it: it is kept in every continuation iff the request's first
   verdict is no older than the TTL.
   */
  lemma RetentionWithinTTL(o: Oracle, audience: string, ttl: int, before: seq<Call>)
    requires Run(o, Init(audience, ttl), before).Some?
    requires var s := Run(o, Init(audience, ttl), before).value; s.log != [] && s.log[|s.log| - 1].at == s.now
    requires EffectiveTTL(ttl) + SECOND <= RETENTION
    ensures var s := Run(o, Init(audience, ttl), before).value;
            var id := s.log[|s.log| - 1].id;
            && id in s.firstSet
            && (KeptFor(o, Init(audience, ttl), before, id, s.now + RETENTION - EffectiveTTL(ttl)) <==>
                s.now - s.firstSet[id] <= EffectiveTTL(ttl))
  {
    hide *;
    var s := Run(o, Init(audience, ttl), before).value;
    var i := |s.log| - 1;
    var until := s.now + RETENTION - EffectiveTTL(ttl);
    InvAlways(o, audience, ttl, before);
    RetentionIsExact(o, audience, ttl, before, i, until);
    ReadableUntilFirstTimer(o, audience, ttl, before, i);
    FirstTimerDecides(o, s, s.log[i].id, until);
  }

  lemma FirstTimerDecides(o: Oracle, s: State, id: string, until: int)
    requires Inv(o, s) && id in s.firstSet && s.now < s.firstSet[id] + RETENTION
    ensures Quiet(s, id, until) <==> until <= s.firstSet[id] + RETENTION
  {
    assert VerdictOk(id, id in s.verdicts, s.timers, s.firstSet[id], s.lastSet[id], s.now);
    hide LogOk, StoreOk, TimesOk;
    assert Timer(id, s.firstSet[id] + RETENTION) in s.timers;
  }

  /**
   The promise can be broken: a request created at time 0 whose first submission
   fails the echo tests at once, and whose second, acceptable one arrives after
   more than the TTL, but within the second in which the request expires.
   */
  lemma RetentionCanFail(
    o: Oracle, audience: string, ttl: nat, c: Creation, bad: Submission, good: Submission, pkg: nat, d: nat)
    returns (calls: seq<Call>)
    requires 0 < ttl < d && Unix(d) == Unix(ttl) && ttl + SECOND <= RETENTION
    requires c.hash.Some? && c.setup.Some? && c.setup.value != "" && o.readable(c.setup.value)
    requires bad.id == good.id == c.id != "" && bad.blob != "" && good.blob != ""
    requires EchoObjection(audience, c.nonce, bad.inputs).Some? && EchoObjection(audience, c.nonce, good.inputs) == None
    requires Decoded(o, good.blob) == Some(pkg) && o.accepts(c.setup.value, pkg)
    ensures Run(o, Init(audience, ttl), calls).Some?
    ensures forall k | 0 <= k < |calls| :: calls[k].Create? || calls[k].Verify? || calls[k].Elapse?
    ensures var s := Run(o, Init(audience, ttl), calls).value;
            && s.log != [] && s.log[|s.log| - 1].at == s.now
            && !KeptFor(o, Init(audience, ttl), calls, s.log[|s.log| - 1].id, s.now + RETENTION - EffectiveTTL(ttl))
  {
    calls := LateAcceptance(o, audience, ttl, c, bad, good, pkg, d);
    assert EffectiveTTL(ttl) == ttl;
    hide *;
    RetentionWithinTTL(o, audience, ttl, calls);
  }

  /** A request that fails the echo tests at once and is accepted in its last second. */
  lemma LateAcceptance(
    o: Oracle, audience: string, ttl: nat, c: Creation, bad: Submission, good: Submission, pkg: nat, d: nat)
    returns (calls: seq<Call>)
    requires 0 < ttl < d && Unix(d) == Unix(ttl)
    requires c.hash.Some? && c.setup.Some? && c.setup.value != "" && o.readable(c.setup.value)
    requires bad.id == good.id == c.id != "" && bad.blob != "" && good.blob != ""
    requires EchoObjection(audience, c.nonce, bad.inputs).Some? && EchoObjection(audience, c.nonce, good.inputs) == None
    requires Decoded(o, good.blob) == Some(pkg) && o.accepts(c.setup.value, pkg)
    ensures calls == [Create(c), Verify(bad), Elapse(d), Verify(good)]
    ensures Run(o, Init(audience, ttl), calls).Some?
    ensures var s := Run(o, Init(audience, ttl), calls).value;
            && s.log != [] && s.log[|s.log| - 1].at == s.now && s.log[|s.log| - 1].id in s.firstSet
            && s.now - s.firstSet[s.log[|s.log| - 1].id] > ttl
  {
    var s0 := Init(audience, ttl);
    var s1 := AfterCreate(s0, c);
    CreatedFromInit(audience, ttl, c);
    hide Init, AfterCreate;
    var s2 := AfterVerify(o, s1, bad);
    FailedAtOnce(o, s1, bad);
    var s3 := s2.(now := s2.now + d);
    var s4 := AfterVerify(o, s3, good);
    LateSuccess(o, s3, good, pkg);
    hide Run, AfterVerify, EchoObjection, Decoded, Unix;
    FourCalls(o, s0, Create(c), Verify(bad), Elapse(d), Verify(good), s1, s2, s3, s4);
    calls := [Create(c), Verify(bad), Elapse(d), Verify(good)];
  }

  lemma EmptyRun(o: Oracle, s0: State)
    ensures Run(o, s0, []) == Some(s0)
  {
  }

  lemma CreatedFromInit(audience: string, ttl: nat, c: Creation)
    requires 0 < ttl && c.hash.Some? && c.setup.Some?
    ensures var s1 := AfterCreate(Init(audience, ttl), c);
            && c.id in s1.store && s1.store[c.id].expiresAt == Unix(ttl) && s1.store[c.id].id == c.id
            && s1.store[c.id].nonce == c.nonce && s1.store[c.id].schemaHash == c.hash.value
            && s1.vk == map[c.hash.value := c.setup.value]
            && s1.now == 0 && s1.firstSet == map[] && s1.audience == audience && s1.log == []
            && c.id !in Init(audience, ttl).created
  {
  }

  lemma FailedAtOnce(o: Oracle, s: State, sub: Submission)
    requires sub.id in s.store && sub.id != "" && sub.blob != "" && s.store[sub.id].id == sub.id
    requires Unix(s.now) <= s.store[sub.id].expiresAt && s.firstSet == map[]
    requires EchoObjection(s.audience, s.store[sub.id].nonce, sub.inputs).Some?
    ensures var t := AfterVerify(o, s, sub);
            && t.store == s.store && t.vk == s.vk && t.audience == s.audience && t.now == s.now
            && t.firstSet == map[sub.id := s.now] && t.log == s.log
  {
    hide EchoObjection;
    assert Objection(o, s, s.store[sub.id], sub).Some?;
    hide Objection;
  }

  lemma LateSuccess(o: Oracle, s: State, sub: Submission, pkg: nat)
    requires sub.id in s.store && s.store[sub.id].id == sub.id != "" && sub.blob != ""
    requires Unix(s.now) <= s.store[sub.id].expiresAt && sub.id in s.firstSet
    requires EchoObjection(s.audience, s.store[sub.id].nonce, sub.inputs) == None
    requires Decoded(o, sub.blob) == Some(pkg)
    requires var h := s.store[sub.id].schemaHash;
             h in s.vk && s.vk[h] != "" && o.readable(s.vk[h]) && o.accepts(s.vk[h], pkg)
    ensures var t := AfterVerify(o, s, sub);
            && t.log != [] && t.log[|t.log| - 1].at == t.now && t.log[|t.log| - 1].id == sub.id && t.now == s.now
            && sub.id in t.firstSet && t.firstSet[sub.id] == s.firstSet[sub.id]
  {
    hide EchoObjection;
    assert Objection(o, s, s.store[sub.id], sub) == None;
    hide Objection;
  }

  lemma FourCalls(o: Oracle, s0: State, a: Call, b: Call, c: Call, d: Call, s1: State, s2: State, s3: State, s4: State)
    requires Enabled(s0, a) && s1 == Step(o, s0, a)
    requires Enabled(s1, b) && s2 == Step(o, s1, b)
    requires Enabled(s2, c) && s3 == Step(o, s2, c)
    requires Enabled(s3, d) && s4 == Step(o, s3, d)
    ensures Run(o, s0, [a, b, c, d]) == Some(s4)
  {
    EmptyRun(o, s0);
    hide Run, Step, Enabled;
    RunOneMore(o, s0, [], a);
    RunOneMore(o, s0, [] + [a], b);
    RunOneMore(o, s0, [] + [a] + [b], c);
    RunOneMore(o, s0, [] + [a] + [b] + [c], d);
    assert [] + [a] + [b] + [c] + [d] == [a, b, c, d];
  }
}
