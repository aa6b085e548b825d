/**
 The presentation-request service: creation, verification, development-mode
 verification, verdicts with purge timers, and the two observers.  Time is in
 nanoseconds, while expiry is compared in whole Unix seconds.
 */
module Requests {
  import opened Wrappers

  const SECOND: nat := 1_000_000_000
  const RETENTION: nat := 900_000_000_000
  const DEFAULT_TTL: nat := 300_000_000_000

  /** `time.Time.Unix`. */
  function Unix(t: nat): nat { t / 1_000_000_000 }

  function EffectiveTTL(ttl: int): nat { if ttl <= 0 then DEFAULT_TTL else ttl }

  datatype Callback = Callback(url: string, secret: string)

  datatype Request = Request(id: string, schemaHash: string, nonce: string, expiresAt: int, callback: Option<Callback>)

  datatype Verdict = Verdict(ok: bool, reason: string, state: string, verifiedAt: Option<nat>)

  /** A sleeping goroutine that will delete a verdict at or after `due`. */
  datatype Timer = Timer(id: string, due: nat)

  /** Public inputs are given in printed form. */
  datatype Submission = Submission(id: string, blob: string, inputs: map<string, string>)

  /** base64, package reconstruction, VK reading and Groth16 verification. */
  datatype Oracle = Oracle(
    base64: string -> Option<string>,
    package: string -> Option<nat>,
    readable: string -> bool,
    accepts: (string, nat) -> bool)

  /** A verification that succeeded; `proof` is the VK and package, absent for `MockVerify`. */
  datatype Event = Event(id: string, at: nat, request: Request, proof: Option<(string, nat)>)

  /**
   `created`, `firstSet`, `lastSet` and `log` are history: creation times, first and last
   verdict times, successes.
   */
  datatype State = State(
    now: nat,
    audience: string,
    ttl: int,
    store: map<string, Request>,
    vk: map<string, string>,
    verdicts: map<string, Verdict>,
    timers: multiset<Timer>,
    created: map<string, nat>,
    firstSet: map<string, nat>,
    lastSet: map<string, nat>,
    log: seq<Event>)

  /**
   The arguments of a creation: a fresh id and nonce, the schema hash unless the JSON is
   invalid, and the setup's VK.
   */
  datatype Creation = Creation(id: string, hash: Option<string>, setup: Option<string>, nonce: string,
      callback: Option<Callback>)

  // ----- steps -----

  predicate Extends(before: map<string, nat>, after: map<string, nat>) {
    forall id | id in before :: id in after && after[id] == before[id]
  }

  /** What no call ever takes back. */
  predicate Grows(s: State, t: State) {
    t.ttl == s.ttl && s.now <= t.now && s.log <= t.log && Extends(s.firstSet, t.firstSet)
  }

  function SetVerdict(s: State, id: string, v: Verdict): (t: State)
    ensures Grows(s, t) && t.vk == s.vk && t.now == s.now && t.log == s.log
  {
    s.(verdicts := s.verdicts[id := v],
       timers := s.timers + multiset{Timer(id, s.now + RETENTION)},
       firstSet := if id in s.firstSet then s.firstSet else s.firstSet[id := s.now],
       lastSet := s.lastSet[id := s.now])
  }

  function NewRequest(s: State, c: Creation): Request
    requires c.hash.Some?
  {
    Request(c.id, c.hash.value, c.nonce, Unix(s.now + EffectiveTTL(s.ttl)), c.callback)
  }

  function AfterCreate(s: State, c: Creation): (t: State)
    ensures Grows(s, t) && t.log == s.log
  {
    if c.hash == None || (c.hash.value !in s.vk && c.setup == None) then s
    else
      s.(vk := if c.hash.value in s.vk then s.vk else s.vk[c.hash.value := c.setup.value],
         store := s.store[c.id := NewRequest(s, c)],
         created := s.created[c.id := s.now])
  }

  function Printed(inputs: map<string, string>, key: string): string {
    if key in inputs then inputs[key] else "<nil>"
  }

  function Mismatch(what: string, want: string, got: string): string {
    what + " mismatch: want=" + want + " got=" + got
  }

  /** The echo tests on submitted public inputs, which are skipped when there are none; `None` is a pass. */
  function EchoObjection(audience: string, nonce: string, inputs: map<string, string>): Option<string> {
    var aud, got := Printed(inputs, "aud"), Printed(inputs, "nonce");
    if inputs == map[] then None
    else if audience != aud then Some(Mismatch("aud", audience, aud))
    else if nonce == "" || got == "" || nonce != got then Some(Mismatch("nonce", nonce, got))
    else None
  }

  /** The checks on a live request, in order; `None` is acceptance. */
  function Objection(o: Oracle, s: State, req: Request, sub: Submission): Option<string> {
    var echo := EchoObjection(s.audience, req.nonce, sub.inputs);
    if echo.Some? then echo
    else match o.base64(sub.blob)
      case None => Some("invalid zkp_blob_b64")
      case Some(raw) =>
        match o.package(raw)
        case None => Some("invalid proof package")
        case Some(pkg) =>
          if req.schemaHash !in s.vk || s.vk[req.schemaHash] == "" then Some("server VK not found")
          else if !o.readable(s.vk[req.schemaHash]) then Some("cannot load server VK")
          else if !o.accepts(s.vk[req.schemaHash], pkg) then Some("verify failed")
          else None
  }

  function Failed(s: State, id: string, reason: string): (t: State)
    ensures Grows(s, t) && t.vk == s.vk && t.log == s.log
  {
    SetVerdict(s, id, Verdict(false, reason, "failed", None))
  }

  function Succeeded(s: State, req: Request, proof: Option<(string, nat)>): (t: State)
    ensures Grows(s, t) && t.vk == s.vk && t.log == s.log + [Event(req.id, s.now, req, proof)]
  {
    var t := SetVerdict(s.(store := s.store - {req.id}), req.id, Verdict(true, "", "verified", Some(s.now)));
    t.(log := t.log + [Event(req.id, s.now, req, proof)])
  }

  /** The package in a blob. */
  function Decoded(o: Oracle, blob: string): Option<nat> {
    var raw :- o.base64(blob);
    o.package(raw)
  }

  function ProofOf(o: Oracle, s: State, req: Request, sub: Submission): Option<(string, nat)> {
    var pkg :- Decoded(o, sub.blob);
    if req.schemaHash in s.vk then Some((s.vk[req.schemaHash], pkg)) else None
  }

  function AfterVerify(o: Oracle, s: State, sub: Submission): (t: State)
    ensures Grows(s, t) && t.vk == s.vk
    ensures t.log == s.log || exists e :: t.log == s.log + [e] && e.proof.Some?
  {
    if sub.id == "" || sub.blob == "" || sub.id !in s.store then s
    else
      var req := s.store[sub.id];
      if Unix(s.now) > req.expiresAt then Failed(s.(store := s.store - {sub.id}), req.id, "request expired")
      else match Objection(o, s, req, sub)
        case Some(reason) => Failed(s, req.id, reason)
        case None =>
          assert ProofOf(o, s, req, sub).Some?;
          Succeeded(s, req, ProofOf(o, s, req, sub))
  }

  function AfterMock(s: State, id: string): (t: State)
    ensures Grows(s, t) && t.vk == s.vk
  {
    if id !in s.store then s
    else
      var req := s.store[id];
      if Unix(s.now) > req.expiresAt then
        SetVerdict(s.(store := s.store - {id}), id, Verdict(false, "request expired", "expired", None))
      else Succeeded(s, req.(id := id), None)
  }

  function AfterPurge(s: State, t: Timer): (r: State)
    ensures Grows(s, r) && r.vk == s.vk && r.log == s.log
  {
    s.(verdicts := s.verdicts - {t.id}, timers := s.timers - multiset{t})
  }

  datatype Call =
    | Create(c: Creation)
    | Verify(sub: Submission)
    | Mock(id: string)
    | Purge(t: Timer)
    | Elapse(d: nat)

  /** Ids are fresh, and a purge fires no earlier than its time. */
  predicate Enabled(s: State, call: Call) {
    match call
    case Create(c) => c.id !in s.created
    case Purge(t) => t in s.timers && t.due <= s.now
    case _ => true
  }

  function Step(o: Oracle, s: State, call: Call): (t: State)
    ensures Grows(s, t)
  {
    match call
    case Create(c) => AfterCreate(s, c)
    case Verify(sub) => AfterVerify(o, s, sub)
    case Mock(id) => AfterMock(s, id)
    case Purge(t) => AfterPurge(s, t)
    case Elapse(d) => s.(now := s.now + d)
  }

  function Init(audience: string, ttl: int): State {
    State(0, audience, ttl, map[], map[], map[], multiset{}, map[], map[], map[], [])
  }

  /** The state after a run of calls, each one atomic. */
  function Run(o: Oracle, s0: State, calls: seq<Call>): Option<State> {
    if calls == [] then Some(s0)
    else
      var n := |calls| - 1;
      var s :- Run(o, s0, calls[..n]);
      if Enabled(s, calls[n]) then Some(Step(o, s, calls[n])) else None
  }

  // ----- the service object -----

  class Service {
    const audience: string
    const ttl: int
    var now: nat
    var store: map<string, Request>
    var vkCache: map<string, string>
    var verdicts: map<string, Verdict>
    var timers: multiset<Timer>
    ghost var created: map<string, nat>
    ghost var firstSet: map<string, nat>
    ghost var lastSet: map<string, nat>
    ghost var log: seq<Event>

    ghost function Abs(): State
      reads this
    {
      State(now, audience, ttl, store, vkCache, verdicts, timers, created, firstSet, lastSet, log)
    }

    constructor (audience: string, ttl: int)
      ensures Abs() == Init(audience, ttl)
    {
      this.audience, this.ttl, now := audience, ttl, 0;
      store, vkCache, verdicts, timers := map[], map[], map[], multiset{};
      created, firstSet, lastSet, log := map[], map[], map[], [];
    }

    method SetVerdictFor(id: string, v: Verdict)
      modifies this
      ensures Abs() == SetVerdict(old(Abs()), id, v)
    {
      verdicts := verdicts[id := v];
      timers := timers + multiset{Timer(id, now + RETENTION)};
      if id !in firstSet { firstSet := firstSet[id := now]; }
      lastSet := lastSet[id := now];
    }

    method CreateRequestFromSchema(c: Creation) returns (req: Option<Request>)
      modifies this
      ensures Abs() == AfterCreate(old(Abs()), c.(callback := None))
      ensures req.Some? <==> c.hash.Some? && (c.hash.value in old(vkCache) || c.setup.Some?)
      ensures req.Some? ==> c.id in store && store[c.id] == req.value
    {
      if c.hash == None { return None; }
      var hash := c.hash.value;
      if hash !in vkCache {
        if c.setup == None { return None; }
        vkCache := vkCache[hash := c.setup.value];
      }
      var r := Request(c.id, hash, c.nonce, Unix(now + EffectiveTTL(ttl)), None);
      store := store[c.id := r];
      created := created[c.id := now];
      return Some(r);
    }

    /** The handler: creates, then loads, edits and saves the request again when a callback is given. */
    method CreatePresentation(c: Creation) returns (ok: bool)
      modifies this
      ensures Abs() == AfterCreate(old(Abs()), c)
    {
      var req := CreateRequestFromSchema(c);
      if req == None { return false; }
      if c.callback.Some? && c.id in store {
        var stored := store[c.id];
        stored := stored.(callback := c.callback);
        store := store[stored.id := stored];
      }
      return true;
    }

    method RecordFail(id: string, reason: string)
      modifies this
      ensures Abs() == Failed(old(Abs()), id, reason)
    {
      SetVerdictFor(id, Verdict(false, reason, "failed", None));
    }

    /** The part of `VerifySubmission` that decides about a live request. */
    method Check(o: Oracle, req: Request, sub: Submission) returns (objection: Option<string>)
      ensures objection == Objection(o, Abs(), req, sub)
    {
      if |sub.inputs| > 0 {
        var aud := Printed(sub.inputs, "aud");
        if audience != aud { return Some(Mismatch("aud", audience, aud)); }
        var want, got := req.nonce, Printed(sub.inputs, "nonce");
        if want == "" || got == "" || want != got { return Some(Mismatch("nonce", want, got)); }
      }
      var raw := o.base64(sub.blob);
      if raw == None { return Some("invalid zkp_blob_b64"); }
      var pkg := o.package(raw.value);
      if pkg == None { return Some("invalid proof package"); }
      var vkb := if req.schemaHash in vkCache then vkCache[req.schemaHash] else "";
      if |vkb| == 0 { return Some("server VK not found"); }
      if !o.readable(vkb) { return Some("cannot load server VK"); }
      if !o.accepts(vkb, pkg.value) { return Some("verify failed"); }
      return None;
    }

    method VerifySubmission(o: Oracle, sub: Submission) returns (ok: bool)
      modifies this
      ensures Abs() == AfterVerify(o, old(Abs()), sub)
      ensures ok <==> |log| > |old(log)|
    {
      if sub.id == "" || sub.blob == "" { return false; }
      if sub.id !in store { return false; }
      var req := store[sub.id];
      if Unix(now) > req.expiresAt {
        store := store - {sub.id};
        RecordFail(req.id, "request expired");
        return false;
      }
      var objection := Check(o, req, sub);
      if objection.Some? {
        RecordFail(req.id, objection.value);
        return false;
      }
      ghost var proof := ProofOf(o, Abs(), req, sub);
      store := store - {req.id};
      SetVerdictFor(req.id, Verdict(true, "", "verified", Some(now)));
      log := log + [Event(req.id, now, req, proof)];
      return true;
    }

    method MockVerify(id: string) returns (ok: bool)
      modifies this
      ensures Abs() == AfterMock(old(Abs()), id)
    {
      if id !in store { return false; }
      var req := store[id];
      if Unix(now) > req.expiresAt {
        store := store - {id};
        SetVerdictFor(id, Verdict(false, "request expired", "expired", None));
        return false;
      }
      store := store - {id};
      SetVerdictFor(id, Verdict(true, "", "verified", Some(now)));
      log := log + [Event(id, now, req.(id := id), None)];
      return true;
    }

    /** The body of a purge goroutine after its sleep. */
    method PurgeVerdict(t: Timer)
      requires t in timers && t.due <= now
      modifies this
      ensures Abs() == AfterPurge(old(Abs()), t)
    {
      verdicts := verdicts - {t.id};
      timers := timers - multiset{t};
    }

    method Result(id: string) returns (state: string)
      ensures state == ResultOf(Abs(), id)
    {
      if id in verdicts { return verdicts[id].state; }
      if id !in store { return "unknown"; }
      if Unix(now) > store[id].expiresAt { return "expired"; }
      return "pending";
    }

    method Status(id: string) returns (state: string)
      ensures state == StatusOf(Abs(), id)
    {
      if id !in store { return "unknown_or_consumed"; }
      if Unix(now) > store[id].expiresAt { return "expired"; }
      return "pending";
    }
  }

  function ResultOf(s: State, id: string): string {
    if id in s.verdicts then s.verdicts[id].state
    else if id !in s.store then "unknown"
    else if Unix(s.now) > s.store[id].expiresAt then "expired"
    else "pending"
  }

  function StatusOf(s: State, id: string): string {
    if id !in s.store then "unknown_or_consumed"
    else if Unix(s.now) > s.store[id].expiresAt then "expired"
    else "pending"
  }

  // ----- invariant -----

  /** A stored request is known, carries its own id and expiry, and its schema's VK is cached. */
  predicate StoreOk(store: map<string, Request>, created: map<string, nat>, vk: map<string, string>, ttl: int) {
    forall id | id in store ::
      && id in created
      && store[id].id == id
      && store[id].expiresAt == Unix(created[id] + EffectiveTTL(ttl))
      && store[id].schemaHash in vk
  }

  /** Creation, first verdict, last verdict and now come in this order. */
  predicate TimesOk(created: map<string, nat>, first: map<string, nat>, last: map<string, nat>, now: nat) {
    && first.Keys == last.Keys
    && (forall id | id in created :: created[id] <= now)
    && forall id | id in first :: id in created && created[id] <= first[id] <= last[id] <= now
  }

  /** No timer of a request is due before its first one. */
  predicate TimersOk(timers: multiset<Timer>, first: map<string, nat>) {
    forall t | t in timers :: t.id in first && first[t.id] + RETENTION <= t.due
  }

  /** A verdict has its last timer pending; until the first timer is due, that one is pending and the verdict there. */
  predicate VerdictOk(id: string, readable: bool, timers: multiset<Timer>, first: nat, last: nat, now: nat) {
    && (readable ==> Timer(id, last + RETENTION) in timers)
    && (now < first + RETENTION ==> readable && Timer(id, first + RETENTION) in timers)
  }

  predicate VerdictsOk(
      verdicts: map<string, Verdict>, timers: multiset<Timer>, first: map<string, nat>,
      last: map<string, nat>, now: nat) {
    && verdicts.Keys <= first.Keys <= last.Keys
    && forall id | id in first :: VerdictOk(id, id in verdicts, timers, first[id], last[id], now)
  }

  /** A success happened in time, consumed its request for good, kept its verdict, and rests on an accepted proof. */
  predicate EventOk(o: Oracle, s: State, e: Event) {
    && e.id in s.created && e.id in s.firstSet && e.id !in s.store
    && s.firstSet[e.id] <= e.at <= s.now
    && e.request.id == e.id
    && e.request.expiresAt == Unix(s.created[e.id] + EffectiveTTL(s.ttl))
    && Unix(e.at) <= e.request.expiresAt
    && (e.id in s.verdicts ==> s.verdicts[e.id] == Verdict(true, "", "verified", Some(e.at)))
    && ProofOk(o, s.vk, e)
  }

  predicate ProofOk(o: Oracle, vk: map<string, string>, e: Event) {
    match e.proof
    case None => true
    case Some((k, pkg)) =>
      e.request.schemaHash in vk && vk[e.request.schemaHash] == k && k != "" && o.readable(k) && o.accepts(k, pkg)
  }

  predicate LogOk(o: Oracle, s: State) {
    forall i | 0 <= i < |s.log| :: EventOk(o, s, s.log[i])
  }

  predicate LogDistinct(log: seq<Event>) {
    forall i, j | 0 <= i < j < |log| :: log[i].id != log[j].id
  }

  predicate Inv(o: Oracle, s: State) {
    && StoreOk(s.store, s.created, s.vk, s.ttl)
    && TimesOk(s.created, s.firstSet, s.lastSet, s.now)
    && TimersOk(s.timers, s.firstSet)
    && VerdictsOk(s.verdicts, s.timers, s.firstSet, s.lastSet, s.now)
    && LogOk(o, s)
    && LogDistinct(s.log)
  }

  lemma SetVerdictKeepsTimes(s: State, id: string, v: Verdict)
    requires TimesOk(s.created, s.firstSet, s.lastSet, s.now) && TimersOk(s.timers, s.firstSet) && id in s.created
    ensures var n := SetVerdict(s, id, v);
            TimesOk(n.created, n.firstSet, n.lastSet, n.now) && TimersOk(n.timers, n.firstSet)
  {
    var n := SetVerdict(s, id, v);
    forall t | t in n.timers ensures t.id in n.firstSet && n.firstSet[t.id] + RETENTION <= t.due {
      assert t in s.timers || t == Timer(id, s.now + RETENTION);
    }
  }

  lemma SetVerdictKeepsVerdicts(s: State, id: string, v: Verdict)
    requires TimesOk(s.created, s.firstSet, s.lastSet, s.now)
    requires VerdictsOk(s.verdicts, s.timers, s.firstSet, s.lastSet, s.now)
    ensures var n := SetVerdict(s, id, v);
            VerdictsOk(n.verdicts, n.timers, n.firstSet, n.lastSet, n.now)
  {
    var n := SetVerdict(s, id, v);
    assert Timer(id, s.now + RETENTION) in n.timers;
    forall x | x in n.firstSet ensures VerdictOk(x, x in n.verdicts, n.timers, n.firstSet[x], n.lastSet[x], n.now) {
      if x in s.firstSet {
        assert VerdictOk(x, x in s.verdicts, s.timers, s.firstSet[x], s.lastSet[x], s.now);
        TimerStays(s.timers, Timer(id, s.now + RETENTION), Timer(x, s.firstSet[x] + RETENTION));
        TimerStays(s.timers, Timer(id, s.now + RETENTION), Timer(x, s.lastSet[x] + RETENTION));
      }
    }
  }

  lemma TimerStays(timers: multiset<Timer>, added: Timer, t: Timer)
    ensures t in timers ==> t in timers + multiset{added}
  {
  }

  lemma SetVerdictKeepsLog(o: Oracle, s: State, id: string, v: Verdict)
    requires LogOk(o, s) && Unlogged(s.log, id)
    ensures LogOk(o, SetVerdict(s, id, v))
  {
    var n := SetVerdict(s, id, v);
    forall i | 0 <= i < |n.log| ensures EventOk(o, n, n.log[i]) { assert EventOk(o, s, s.log[i]); }
  }

  predicate Unlogged(log: seq<Event>, id: string) {
    forall i | 0 <= i < |log| :: log[i].id != id
  }

  /** A stored request has no success in the log. */
  lemma StoredIsUnlogged(o: Oracle, s: State, id: string)
    requires LogOk(o, s) && id in s.store
    ensures Unlogged(s.log, id)
  {
    forall i | 0 <= i < |s.log| ensures s.log[i].id != id { assert EventOk(o, s, s.log[i]); }
  }

  lemma RemoveKeepsInv(o: Oracle, s: State, id: string)
    requires Inv(o, s)
    ensures Inv(o, s.(store := s.store - {id}))
  {
    hide TimesOk, TimersOk, VerdictsOk, LogDistinct;
    var n := s.(store := s.store - {id});
    forall i | 0 <= i < |n.log| ensures EventOk(o, n, n.log[i]) { assert EventOk(o, s, s.log[i]); }
  }

  /** Recording any verdict for a known request without a success. */
  lemma RecordKeepsInv(o: Oracle, s: State, id: string, v: Verdict)
    requires Inv(o, s) && id in s.created && Unlogged(s.log, id)
    ensures Inv(o, SetVerdict(s, id, v))
  {
    SetVerdictKeepsTimes(s, id, v);
    SetVerdictKeepsVerdicts(s, id, v);
    SetVerdictKeepsLog(o, s, id, v);
    hide TimesOk, TimersOk, VerdictsOk, LogDistinct, StoreOk, LogOk;
  }

  lemma SuccessKeepsInv(o: Oracle, s: State, id: string, proof: Option<(string, nat)>)
    requires Inv(o, s) && id in s.store && Unix(s.now) <= s.store[id].expiresAt
    requires ProofOk(o, s.vk, Event(id, s.now, s.store[id], proof))
    ensures Inv(o, Succeeded(s, s.store[id], proof))
  {
    var req := s.store[id];
    var e := Event(id, s.now, req, proof);
    var t := s.(store := s.store - {id});
    var v := Verdict(true, "", "verified", Some(s.now));
    StoredIsUnlogged(o, s, id);
    RemoveKeepsInv(o, s, id);
    RecordKeepsInv(o, t, id, v);
    var m := SetVerdict(t, id, v);
    NewEventOk(o, s, id, e);
    LogOneMore(o, m, e);
    assert Succeeded(s, req, proof) == m.(log := m.log + [e]);
    hide StoreOk, TimesOk, TimersOk, VerdictsOk, LogOk, LogDistinct, SetVerdict;
  }

  lemma NewEventOk(o: Oracle, s: State, id: string, e: Event)
    requires StoreOk(s.store, s.created, s.vk, s.ttl) && TimesOk(s.created, s.firstSet, s.lastSet, s.now)
    requires id in s.store && Unix(s.now) <= s.store[id].expiresAt && e.id == id && e.at == s.now
        && e.request == s.store[id]
    requires ProofOk(o, s.vk, e)
    ensures EventOk(o, SetVerdict(s.(store := s.store - {id}), id, Verdict(true, "", "verified", Some(s.now))), e)
  {
    hide ProofOk;
  }

  lemma LogOneMore(o: Oracle, s: State, e: Event)
    requires LogOk(o, s) && LogDistinct(s.log) && Unlogged(s.log, e.id) && EventOk(o, s, e)
    ensures LogOk(o, s.(log := s.log + [e])) && LogDistinct(s.log + [e])
  {
    var n := s.(log := s.log + [e]);
    forall i | 0 <= i < |n.log| ensures EventOk(o, n, n.log[i]) {
      assert EventOk(o, s, if i < |s.log| then s.log[i] else e);
    }
  }

  lemma AcceptedProof(o: Oracle, s: State, req: Request, sub: Submission)
    requires Objection(o, s, req, sub) == None
    ensures ProofOf(o, s, req, sub).Some?
    ensures ProofOk(o, s.vk, Event(req.id, s.now, req, ProofOf(o, s, req, sub)))
  {
  }

  lemma VerifyKeepsInv(o: Oracle, s: State, sub: Submission)
    requires Inv(o, s)
    ensures Inv(o, AfterVerify(o, s, sub))
  {
    if sub.id != "" && sub.blob != "" && sub.id in s.store {
      var req := s.store[sub.id];
      StoredIsUnlogged(o, s, sub.id);
      RemoveKeepsInv(o, s, sub.id);
      assert req.id == sub.id && sub.id in s.created;
      if Unix(s.now) > req.expiresAt {
        RecordKeepsInv(o, s.(store := s.store - {sub.id}), req.id, Verdict(false, "request expired", "failed", None));
      } else {
        match Objection(o, s, req, sub)
        case Some(reason) => RecordKeepsInv(o, s, req.id, Verdict(false, reason, "failed", None));
        case None =>
          AcceptedProof(o, s, req, sub);
          SuccessKeepsInv(o, s, sub.id, ProofOf(o, s, req, sub));
      }
    }
    hide Inv, Objection, ProofOf;
  }

  lemma MockKeepsInv(o: Oracle, s: State, id: string)
    requires Inv(o, s)
    ensures Inv(o, AfterMock(s, id))
  {
    if id in s.store {
      StoredIsUnlogged(o, s, id);
      RemoveKeepsInv(o, s, id);
      var req := s.store[id];
      assert req.(id := id) == req && id in s.created;
      if Unix(s.now) > req.expiresAt {
        RecordKeepsInv(o, s.(store := s.store - {id}), id, Verdict(false, "request expired", "expired", None));
      } else {
        SuccessKeepsInv(o, s, id, None);
      }
    }
    hide Inv;
  }

  lemma CreateKeepsLog(o: Oracle, s: State, c: Creation)
    requires LogOk(o, s) && c.id !in s.created
    ensures LogOk(o, AfterCreate(s, c))
  {
    hide NewRequest;
    var n := AfterCreate(s, c);
    forall i | 0 <= i < |n.log| ensures EventOk(o, n, n.log[i]) {
      assert EventOk(o, s, s.log[i]);
      assert ProofOk(o, s.vk, s.log[i]) ==> ProofOk(o, n.vk, n.log[i]);
    }
  }

  lemma CreateKeepsStore(s: State, c: Creation)
    requires StoreOk(s.store, s.created, s.vk, s.ttl) && TimesOk(s.created, s.firstSet, s.lastSet, s.now)
        && c.id !in s.created
    ensures var n := AfterCreate(s, c);
            StoreOk(n.store, n.created, n.vk, n.ttl) && TimesOk(n.created, n.firstSet, n.lastSet, n.now)
  {
    hide Unix, EffectiveTTL;
  }

  lemma CreateKeepsInv(o: Oracle, s: State, c: Creation)
    requires Inv(o, s) && c.id !in s.created
    ensures Inv(o, AfterCreate(s, c))
  {
    CreateKeepsLog(o, s, c);
    CreateKeepsStore(s, c);
    hide TimesOk, TimersOk, VerdictsOk, LogDistinct, StoreOk, LogOk;
  }

  lemma PurgeKeepsInv(o: Oracle, s: State, t: Timer)
    requires Inv(o, s) && t in s.timers && t.due <= s.now
    ensures Inv(o, AfterPurge(s, t))
  {
    var n := AfterPurge(s, t);
    PurgeKeepsLog(o, s, t);
    hide LogOk, StoreOk, LogDistinct, EventOk;
    assert t.id in s.firstSet && s.firstSet[t.id] + RETENTION <= s.now;
    forall x | x in n.firstSet ensures VerdictOk(x, x in n.verdicts, n.timers, n.firstSet[x], n.lastSet[x], n.now) {
      assert VerdictOk(x, x in s.verdicts, s.timers, s.firstSet[x], s.lastSet[x], s.now);
    }
    assert TimersOk(n.timers, n.firstSet) by {
      forall u | u in n.timers ensures u.id in n.firstSet && n.firstSet[u.id] + RETENTION <= u.due {
        assert u in s.timers;
      }
    }
    hide TimesOk, TimersOk, VerdictOk;
  }

  lemma PurgeKeepsLog(o: Oracle, s: State, t: Timer)
    requires LogOk(o, s)
    ensures LogOk(o, AfterPurge(s, t))
  {
    hide ProofOk;
    var n := AfterPurge(s, t);
    forall i | 0 <= i < |n.log| ensures EventOk(o, n, n.log[i]) { assert EventOk(o, s, s.log[i]); }
  }

  lemma ElapseKeepsInv(o: Oracle, s: State, d: nat)
    requires Inv(o, s)
    ensures Inv(o, s.(now := s.now + d))
  {
    var n := s.(now := s.now + d);
    forall i | 0 <= i < |n.log| ensures EventOk(o, n, n.log[i]) { assert EventOk(o, s, s.log[i]); }
    forall x | x in n.firstSet ensures VerdictOk(x, x in n.verdicts, n.timers, n.firstSet[x], n.lastSet[x], n.now) {
      assert VerdictOk(x, x in s.verdicts, s.timers, s.firstSet[x], s.lastSet[x], s.now);
    }
  }

  lemma StepKeepsInv(o: Oracle, s: State, call: Call)
    requires Inv(o, s) && Enabled(s, call)
    ensures Inv(o, Step(o, s, call))
  {
    hide Inv, AfterCreate, AfterVerify, AfterMock, AfterPurge;
    match call
    case Create(c) => CreateKeepsInv(o, s, c);
    case Verify(sub) => VerifyKeepsInv(o, s, sub);
    case Mock(id) => MockKeepsInv(o, s, id);
    case Purge(t) => PurgeKeepsInv(o, s, t);
    case Elapse(d) => ElapseKeepsInv(o, s, d);
  }

  lemma InitInv(o: Oracle, audience: string, ttl: int)
    ensures Inv(o, Init(audience, ttl))
  {
  }

  /** The invariant holds after every run. */
  lemma {:induction false} InvAlways(o: Oracle, audience: string, ttl: int, calls: seq<Call>)
    ensures Run(o, Init(audience, ttl), calls).Some? ==> Inv(o, Run(o, Init(audience, ttl), calls).value)
    ensures Run(o, Init(audience, ttl), calls).Some? ==> Run(o, Init(audience, ttl), calls).value.ttl == ttl
  {
    InitInv(o, audience, ttl);
    hide Inv, Step;
    if calls != [] && Run(o, Init(audience, ttl), calls).Some? {
      var n := |calls| - 1;
      InvAlways(o, audience, ttl, calls[..n]);
      StepKeepsInv(o, Run(o, Init(audience, ttl), calls[..n]).value, calls[n]);
    }
  }

  // ----- life cycle -----

  lemma RunOneMore(o: Oracle, s0: State, calls: seq<Call>, call: Call)
    requires Run(o, s0, calls).Some? && Enabled(Run(o, s0, calls).value, call)
    ensures Run(o, s0, calls + [call]) == Some(Step(o, Run(o, s0, calls).value, call))
  {
    assert (calls + [call])[..|calls|] == calls;
  }

  /** Continuing a run only extends the log, and never forgets a first verdict time. */
  lemma {:induction false} LogGrows(o: Oracle, s0: State, before: seq<Call>, after: seq<Call>)
    requires Run(o, s0, before + after).Some?
    ensures Run(o, s0, before).Some?
    ensures Run(o, s0, before).value.log <= Run(o, s0, before + after).value.log
    ensures forall id | id in Run(o, s0, before).value.firstSet ::
              && id in Run(o, s0, before + after).value.firstSet
              && Run(o, s0, before + after).value.firstSet[id] == Run(o, s0, before).value.firstSet[id]
  {
    hide Step, Enabled;
    if after == [] {
      assert before + after == before;
    } else {
      var n := |after| - 1;
      assert (before + after)[..|before| + n] == before + after[..n];
      assert (before + after)[|before| + n] == after[n];
      LogGrows(o, s0, before, after[..n]);
    }
  }

  /**
   In every run a request is verified at most once, no later than the second it
   expires in, and only with a proof its own schema's VK accepts unless
   `MockVerify` did it.
   */
  lemma VerifiedAtMostOnceAndInTime(o: Oracle, audience: string, ttl: int, calls: seq<Call>)
    requires Run(o, Init(audience, ttl), calls).Some?
    ensures var s := Run(o, Init(audience, ttl), calls).value;
            && (forall i, j | 0 <= i < j < |s.log| :: s.log[i].id != s.log[j].id)
            && forall i | 0 <= i < |s.log| ::
                 var e := s.log[i];
                 && Unix(e.at) <= e.request.expiresAt
                 && (e.proof.Some? ==>
                       && e.request.schemaHash in s.vk && e.proof.value.0 == s.vk[e.request.schemaHash]
                       && o.accepts(e.proof.value.0, e.proof.value.1))
  {
    InvAlways(o, audience, ttl, calls);
    var s := Run(o, Init(audience, ttl), calls).value;
    forall i | 0 <= i < |s.log| ensures EventOk(o, s, s.log[i]) {}
  }

  /** Without `MockVerify` every success rests on a proof. */
  lemma {:induction false} OnlyMockNeedsNoProof(o: Oracle, s0: State, calls: seq<Call>)
    requires Run(o, s0, calls).Some? && s0.log == []
    requires forall i | 0 <= i < |calls| :: !calls[i].Mock?
    ensures forall e | e in Run(o, s0, calls).value.log :: e.proof.Some?
  {
    if calls != [] {
      var n := |calls| - 1;
      OnlyMockNeedsNoProof(o, s0, calls[..n]);
      StepKeepsProofs(o, Run(o, s0, calls[..n]).value, calls[n]);
      hide Step, Enabled;
    }
  }

  lemma StepKeepsProofs(o: Oracle, s: State, call: Call)
    requires !call.Mock? && forall e | e in s.log :: e.proof.Some?
    ensures forall e | e in Step(o, s, call).log :: e.proof.Some?
  {
    hide AfterVerify, AfterCreate, AfterMock, AfterPurge;
  }

  /**
   Whatever is called after a success, the request never re-enters the store and
   its verdict is the same success or purged; so `Result` says "verified" or
   "unknown", never "failed", and `Status` says it is consumed.
   */
  lemma SuccessIsNeverUndone(o: Oracle, audience: string, ttl: int, before: seq<Call>, after: seq<Call>, i: nat)
    requires Run(o, Init(audience, ttl), before + after).Some?
    requires Run(o, Init(audience, ttl), before).Some? && i < |Run(o, Init(audience, ttl), before).value.log|
    ensures var e := Run(o, Init(audience, ttl), before).value.log[i];
            var t := Run(o, Init(audience, ttl), before + after).value;
            && e.id !in t.store
            && (e.id in t.verdicts ==> t.verdicts[e.id] == Verdict(true, "", "verified", Some(e.at)))
            && ResultOf(t, e.id) == (if e.id in t.verdicts then "verified" else "unknown")
            && StatusOf(t, e.id) == "unknown_or_consumed"
  {
    LogGrows(o, Init(audience, ttl), before, after);
    InvAlways(o, audience, ttl, before + after);
    var t := Run(o, Init(audience, ttl), before + after).value;
    assert EventOk(o, t, t.log[i]);
    assert t.log[i] == Run(o, Init(audience, ttl), before).value.log[i];
  }

  /** When setups yield non-empty keys, no live request is ever refused for a missing VK. */
  lemma {:induction false} VKIsNeverMissing(o: Oracle, audience: string, ttl: int, calls: seq<Call>, sub: Submission)
    requires Run(o, Init(audience, ttl), calls).Some?
    requires forall i | 0 <= i < |calls| :: calls[i].Create? ==> calls[i].c.setup != Some("")
    ensures var s := Run(o, Init(audience, ttl), calls).value;
            && (forall h | h in s.vk :: s.vk[h] != "")
            && (sub.id in s.store ==> Objection(o, s, s.store[sub.id], sub) != Some("server VK not found"))
  {
    InvAlways(o, audience, ttl, calls);
    NonEmptyKeys(o, Init(audience, ttl), calls);
    var s := Run(o, Init(audience, ttl), calls).value;
    hide Run, Init;
    if sub.id in s.store { KeyIsFound(o, s, sub); }
  }

  /**
   A proof package carries no tie to the request it was made for: once accepted, it
   is accepted again for every live request of the same schema, exactly when the
   submitted public inputs are absent or echo that request's audience and nonce.
   */
  lemma AcceptedPackageIsReusable(
    o: Oracle, audience: string, ttl: int, calls: seq<Call>, i: nat, pkg: nat, sub: Submission)
    requires Run(o, Init(audience, ttl), calls).Some? && i < |Run(o, Init(audience, ttl), calls).value.log|
    requires var s := Run(o, Init(audience, ttl), calls).value;
             && sub.id in s.store && sub.id != "" && sub.blob != "" && Unix(s.now) <= s.store[sub.id].expiresAt
             && s.log[i].proof.Some? && s.log[i].proof.value.1 == pkg && Decoded(o, sub.blob) == Some(pkg)
             && s.store[sub.id].schemaHash == s.log[i].request.schemaHash
    ensures var s := Run(o, Init(audience, ttl), calls).value;
            var req := s.store[sub.id];
            AfterVerify(o, s, sub).log == s.log + [Event(sub.id, s.now, req, s.log[i].proof)] <==>
            EchoObjection(s.audience, req.nonce, sub.inputs) == None
    ensures EchoObjection(audience, Run(o, Init(audience, ttl), calls).value.store[sub.id].nonce, map[]) == None
  {
    InvAlways(o, audience, ttl, calls);
    var s := Run(o, Init(audience, ttl), calls).value;
    hide Run, Init;
    assert s.store[sub.id].id == sub.id;
    assert EventOk(o, s, s.log[i]);
    hide Inv, EventOk;
    ReuseStep(o, s, s.log[i], pkg, sub);
  }

  lemma ReuseStep(o: Oracle, s: State, e: Event, pkg: nat, sub: Submission)
    requires sub.id in s.store && sub.id != "" && sub.blob != "" && Unix(s.now) <= s.store[sub.id].expiresAt
    requires s.store[sub.id].id == sub.id && ProofOk(o, s.vk, e)
    requires e.proof.Some? && e.proof.value.1 == pkg && Decoded(o, sub.blob) == Some(pkg)
    requires s.store[sub.id].schemaHash == e.request.schemaHash
    ensures AfterVerify(o, s, sub).log == s.log + [Event(sub.id, s.now, s.store[sub.id], e.proof)] <==>
            EchoObjection(s.audience, s.store[sub.id].nonce, sub.inputs) == None
  {
    hide EchoObjection, Unix;
    var req := s.store[sub.id];
    assert Objection(o, s, req, sub) == EchoObjection(s.audience, req.nonce, sub.inputs);
    assert ProofOf(o, s, req, sub) == e.proof;
    hide Objection, ProofOf, ProofOk;
    if Objection(o, s, req, sub).Some? {
      var f := AfterVerify(o, s, sub);
      assert f.log == s.log && |s.log + [Event(sub.id, s.now, req, e.proof)]| == |s.log| + 1;
    }
  }

  lemma KeyIsFound(o: Oracle, s: State, sub: Submission)
    requires Inv(o, s) && sub.id in s.store && forall h | h in s.vk :: s.vk[h] != ""
    ensures Objection(o, s, s.store[sub.id], sub) != Some("server VK not found")
  {
    assert s.store[sub.id].schemaHash in s.vk;
    hide Inv;
  }

  lemma {:induction false} NonEmptyKeys(o: Oracle, s0: State, calls: seq<Call>)
    requires Run(o, s0, calls).Some? && s0.vk == map[]
    requires forall i | 0 <= i < |calls| :: calls[i].Create? ==> calls[i].c.setup != Some("")
    ensures forall h | h in Run(o, s0, calls).value.vk :: Run(o, s0, calls).value.vk[h] != ""
  {
    if calls != [] {
      var n := |calls| - 1;
      NonEmptyKeys(o, s0, calls[..n]);
      StepKeepsKeysNonEmpty(o, Run(o, s0, calls[..n]).value, calls[n]);
    }
  }

  lemma StepKeepsKeysNonEmpty(o: Oracle, s: State, call: Call)
    requires forall h | h in s.vk :: s.vk[h] != ""
    requires call.Create? ==> call.c.setup != Some("")
    ensures forall h | h in Step(o, s, call).vk :: Step(o, s, call).vk[h] != ""
  {
    if call.Create? { CreateKeepsKeysNonEmpty(s, call.c); }
    hide AfterVerify, AfterCreate, AfterMock, AfterPurge;
  }

  lemma CreateKeepsKeysNonEmpty(s: State, c: Creation)
    requires forall h | h in s.vk :: s.vk[h] != ""
    requires c.setup != Some("")
    ensures forall h | h in AfterCreate(s, c).vk :: AfterCreate(s, c).vk[h] != ""
  {
    hide NewRequest;
  }
}
