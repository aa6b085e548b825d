/**
 The outbox table and the two consumers that drive it: failures, which count
 retries up to a limit, and verification results, which save a proof.  Tables are
 maps and sequences; every statement succeeds, and soft-deleted rows are those
 with `processed` set.
 */
module Outbox {
  import opened Wrappers

  const MAX_RETRIES: nat := 5

  type Uuid = string

  datatype Event = Event(id: string, identity: string, schema: string, request: string, toProcess: bool, retry: nat,
      processed: bool)

  datatype FailureRow = FailureRow(eventId: string, body: string, error: string, reason: string)

  datatype SchemaRow = SchemaRow(schema: string, owner: int)

  /** `event` is history: which event the proof was saved for. */
  datatype ProofRow = ProofRow(schemaRow: nat, owner: int, signature: string, account: string, event: string)

  /** `identities` maps public ids to row ids; the consumers only read it. */
  datatype Tables = Tables(
    events: map<Uuid, Event>,
    identities: map<string, int>,
    schemas: seq<SchemaRow>,
    failures: seq<FailureRow>,
    proofs: seq<ProofRow>)

  datatype Outcome = Done | Error | Panic

  datatype Message =
    | NewEvent(id: Uuid, identity: string, schema: string, request: string)
    | Failure(row: FailureRow)
    | Result(eventId: string, signature: string, account: string)

  /** The zero value Go leaves in `event` when no open row is found. */
  const ZERO_EVENT: Event := Event("", "", "", "", false, 0, false)

  // ----- repository -----

  function GetEvent(t: Tables, id: Uuid): Option<Event> {
    if id in t.events && !t.events[id].processed then Some(t.events[id]) else None
  }

  function MarkProcessed(t: Tables, id: Uuid): Option<Tables> {
    var e :- GetEvent(t, id);
    Some(t.(events := t.events[id := e.(processed := true)]))
  }

  /** One transaction: the row is counted up and, at the limit, closed. */
  function UpdateRetry(t: Tables, id: Uuid): Option<Tables> {
    var e :- GetEvent(t, id);
    Some(t.(events := t.events[id := e.(retry := e.retry + 1, processed := e.retry >= MAX_RETRIES)]))
  }

  /** The position of the first row with this schema. */
  function FindSchema(rows: seq<SchemaRow>, schema: string): Option<nat> {
    if rows == [] then None
    else if rows[0].schema == schema then Some(0)
    else match FindSchema(rows[1..], schema)
      case Some(i) => Some(i + 1)
      case None => None
  }

  function FindOrCreateSchema(t: Tables, schema: string, owner: int): (Tables, nat) {
    match FindSchema(t.schemas, schema)
    case Some(i) => (t, i)
    case None => (t.(schemas := t.schemas + [SchemaRow(schema, owner)]), |t.schemas|)
  }

  // ----- consumers -----

  /** `SaveFailedAndUpdateOutbox`; `parse` is `uuid.Parse`, whose failure panics. */
  function HandleFailure(parse: string -> Option<Uuid>, t: Tables, row: FailureRow): (Tables, Outcome) {
    var saved := t.(failures := t.failures + [row]);
    match parse(row.eventId)
    case None => (saved, Panic)
    case Some(id) =>
      match UpdateRetry(saved, id)
      case Some(u) => (u, Done)
      case None => (saved, Error)
  }

  /** `ProcessVerificationResult`: the error of looking the event up is overwritten, not returned. */
  function HandleResult(
      parse: string -> Option<Uuid>, t: Tables, eventId: string, signature: string,
      account: string): (Tables, Outcome) {
    match parse(eventId)
    case None => (t, Panic)
    case Some(id) =>
      var event := match GetEvent(t, id) case Some(e) => e case None => ZERO_EVENT;
      if event.identity !in t.identities then (t, Error)
      else
        var owner := t.identities[event.identity];
        var (u, row) := FindOrCreateSchema(t, event.schema, owner);
        var saved := u.(proofs := u.proofs + [ProofRow(row, owner, signature, account, event.id)]);
        match parse(event.id)
        case None => (saved, Panic)
        case Some(same) =>
          match MarkProcessed(saved, same)
          case Some(closed) => (closed, Done)
          case None => (saved, Error)
  }

  function Handle(parse: string -> Option<Uuid>, t: Tables, m: Message): Tables {
    match m
    case NewEvent(id, identity, schema, request) =>
      if id in t.events then t
      else t.(events := t.events[id := Event(id, identity, schema, request, false, 0, false)])
    case Failure(row) => HandleFailure(parse, t, row).0
    case Result(eventId, signature, account) => HandleResult(parse, t, eventId, signature, account).0
  }

  function Run(parse: string -> Option<Uuid>, t: Tables, ms: seq<Message>): Tables
    decreases |ms|
  {
    if ms == [] then t else Run(parse, Handle(parse, t, ms[0]), ms[1..])
  }

  // ----- the repository and consumers as objects -----

  class Database {
    var events: map<Uuid, Event>
    var identities: map<string, int>
    var schemas: seq<SchemaRow>
    var failures: seq<FailureRow>
    var proofs: seq<ProofRow>

    function Abs(): Tables
      reads this
    {
      Tables(events, identities, schemas, failures, proofs)
    }

    method GetEventRow(id: Uuid) returns (event: Event, ok: bool)
      ensures ok <==> GetEvent(Abs(), id).Some?
      ensures event == if ok then GetEvent(Abs(), id).value else ZERO_EVENT
    {
      if id in events && !events[id].processed { return events[id], true; }
      return ZERO_EVENT, false;
    }

    method CreateEvent(id: Uuid, identity: string, schema: string, request: string)
      requires id !in events
      modifies this
      ensures forall parse :: Abs() == Handle(parse, old(Abs()), NewEvent(id, identity, schema, request))
    {
      events := events[id := Event(id, identity, schema, request, false, 0, false)];
    }

    method MarkEventAsProcessed(id: Uuid) returns (ok: bool)
      modifies this
      ensures ok <==> MarkProcessed(old(Abs()), id).Some?
      ensures Abs() == if ok then MarkProcessed(old(Abs()), id).value else old(Abs())
    {
      var event;
      event, ok := GetEventRow(id);
      if !ok { return false; }
      events := events[id := event.(processed := true)];
    }

    method UpdateRetryValue(id: Uuid) returns (ok: bool)
      modifies this
      ensures ok <==> UpdateRetry(old(Abs()), id).Some?
      ensures Abs() == if ok then UpdateRetry(old(Abs()), id).value else old(Abs())
    {
      var event;
      event, ok := GetEventRow(id);
      if !ok { return false; }
      events := events[id := event.(retry := event.retry + 1)];
      if event.retry >= MAX_RETRIES {
        ok := MarkEventAsProcessed(id);
      }
    }

    method FindOrCreateVerifiedSchema(schema: string, owner: int) returns (row: nat)
      modifies this
      ensures (Abs(), row) == FindOrCreateSchema(old(Abs()), schema, owner)
    {
      for i := 0 to |schemas|
        invariant Abs() == old(Abs())
        invariant FindSchema(schemas, schema) ==
                  match FindSchema(schemas[i..], schema) case Some(j) => Some(i + j) case None => None
      {
        assert schemas[i..][1..] == schemas[i + 1..];
        if schemas[i].schema == schema { return i; }
      }
      assert schemas[|schemas|..] == [];
      row := |schemas|;
      schemas := schemas + [SchemaRow(schema, owner)];
    }

    method SaveFailedAndUpdateOutbox(parse: string -> Option<Uuid>, r: FailureRow) returns (out: Outcome)
      modifies this
      ensures (Abs(), out) == HandleFailure(parse, old(Abs()), r)
    {
      failures := failures + [r];
      var id := parse(r.eventId);
      if id == None { return Panic; }
      var ok := UpdateRetryValue(id.value);
      return if ok then Done else Error;
    }

    method ProcessVerificationResult(parse: string -> Option<Uuid>, eventId: string, signature: string, account: string)
      returns (out: Outcome)
      modifies this
      ensures (Abs(), out) == HandleResult(parse, old(Abs()), eventId, signature, account)
    {
      var id := parse(eventId);
      if id == None { return Panic; }
      var event, _ := GetEventRow(id.value);
      if event.identity !in identities { return Error; }
      var owner := identities[event.identity];
      var row := FindOrCreateVerifiedSchema(event.schema, owner);
      proofs := proofs + [ProofRow(row, owner, signature, account, event.id)];
      var same := parse(event.id);
      if same == None { return Panic; }
      var ok := MarkEventAsProcessed(same.value);
      return if ok then Done else Error;
    }
  }

  // ----- what a run does to one event -----

  /** Rows carry their own key, keys are canonical ids, and the zero event's id is not one. */
  predicate WellFormed(parse: string -> Option<Uuid>, t: Tables) {
    && parse("") == None
    && forall id | id in t.events :: t.events[id].id == id && parse(id) == Some(id)
  }

  /** New events get fresh canonical ids. */
  predicate WellFormedMessage(parse: string -> Option<Uuid>, m: Message) {
    m.NewEvent? ==> parse(m.id) == Some(m.id)
  }

  datatype Mark = Failed | Succeeded

  /** What a message means for one event, as the reference sees it. */
  function MarkOf(parse: string -> Option<Uuid>, m: Message, id: Uuid, known: bool): seq<Mark> {
    match m
    case Failure(row) => if parse(row.eventId) == Some(id) then [Failed] else []
    case Result(eventId, _, _) => if parse(eventId) == Some(id) && known then [Succeeded] else []
    case NewEvent(_, _, _, _) => []
  }

  function Marks(parse: string -> Option<Uuid>, ms: seq<Message>, id: Uuid, known: bool): seq<Mark> {
    if ms == [] then [] else MarkOf(parse, ms[0], id, known) + Marks(parse, ms[1..], id, known)
  }

  /** Failures before the first success. */
  function LeadingFailures(h: seq<Mark>): nat {
    if h == [] || h[0] == Succeeded then 0 else 1 + LeadingFailures(h[1..])
  }

  function Min(a: nat, b: nat): nat { if a < b then a else b }

  function ProofsFor(proofs: seq<ProofRow>, id: Uuid): nat {
    if proofs == [] then 0
    else ProofsFor(proofs[..|proofs| - 1], id) + if proofs[|proofs| - 1].event == id then 1 else 0
  }

  lemma ProofAppended(proofs: seq<ProofRow>, p: ProofRow, id: Uuid)
    ensures ProofsFor(proofs + [p], id) == ProofsFor(proofs, id) + if p.event == id then 1 else 0
  {
    assert (proofs + [p])[..|proofs|] == proofs;
  }

  /** The effect of one message on an event that is already there. */
  predicate Affects(parse: string -> Option<Uuid>, t: Tables, u: Tables, id: Uuid, h: seq<Mark>) {
    && WellFormed(parse, t) && WellFormed(parse, u) && u.identities == t.identities && id in t.events && id in u.events
    && var e := t.events[id];
       && u.events[id] == (if e.processed || h == [] then e
                           else if h == [Failed] then e.(retry := e.retry + 1, processed := e.retry >= MAX_RETRIES)
                           else e.(processed := true))
       && ProofsFor(u.proofs, id) == ProofsFor(t.proofs, id) + (if !e.processed && h == [Succeeded] then 1 else 0)
  }

  lemma ResultAffects(parse: string -> Option<Uuid>, t: Tables, m: Message, id: Uuid)
    requires WellFormed(parse, t) && m.Result? && id in t.events
    ensures Affects(parse, t, Handle(parse, t, m), id, MarkOf(parse, m, id, t.events[id].identity in t.identities))
  {
    assert id != "";
    if parse(m.eventId).Some? {
      var event := match GetEvent(t, parse(m.eventId).value) case Some(e) => e case None => ZERO_EVENT;
      if event.identity in t.identities {
        var owner := t.identities[event.identity];
        var (u, row) := FindOrCreateSchema(t, event.schema, owner);
        assert u.proofs == t.proofs && u.events == t.events && u.identities == t.identities;
        ProofAppended(t.proofs, ProofRow(row, owner, m.signature, m.account, event.id), id);
        hide FindOrCreateSchema, ProofsFor;
      }
    }
  }

  lemma HandleAffects(parse: string -> Option<Uuid>, t: Tables, m: Message, id: Uuid)
    requires WellFormed(parse, t) && WellFormedMessage(parse, m) && id in t.events
    ensures Affects(parse, t, Handle(parse, t, m), id, MarkOf(parse, m, id, t.events[id].identity in t.identities))
  {
    match m
    case NewEvent(_, _, _, _) => CreationAffects(parse, t, m, id);
    case Failure(_) => FailureAffects(parse, t, m, id);
    case Result(_, _, _) => ResultAffects(parse, t, m, id);
    hide HandleResult, HandleFailure, Affects;
  }

  lemma CreationAffects(parse: string -> Option<Uuid>, t: Tables, m: Message, id: Uuid)
    requires WellFormed(parse, t) && WellFormedMessage(parse, m) && m.NewEvent? && id in t.events
    ensures Affects(parse, t, Handle(parse, t, m), id, [])
  {
    hide ProofsFor;
  }

  lemma FailureAffects(parse: string -> Option<Uuid>, t: Tables, m: Message, id: Uuid)
    requires WellFormed(parse, t) && m.Failure? && id in t.events
    ensures Affects(parse, t, Handle(parse, t, m), id, MarkOf(parse, m, id, t.events[id].identity in t.identities))
  {
    hide ProofsFor;
  }

  /** How an event that was open as `e`, with `saved` proofs, ends after the messages `h` about it. */
  predicate EndsAs(e: Event, saved: nat, h: seq<Mark>, f: Event, proofs: nat) {
    var n := e.retry + LeadingFailures(h);
    && f == e.(retry := Min(n, 6), processed := n >= 6 || Succeeded in h)
    && proofs == saved + (if n <= 5 && Succeeded in h then 1 else 0)
  }

  /**
   Over every run, an open event's retry count is the number of failures handled
   while it was open; it closes exactly at the sixth of them or at the first
   successful result, and one proof is saved iff a success came first.
   */
  lemma {:induction false} OutboxRun(parse: string -> Option<Uuid>, t: Tables, ms: seq<Message>, id: Uuid)
    requires WellFormed(parse, t) && (forall i | 0 <= i < |ms| :: WellFormedMessage(parse, ms[i]))
    requires id in t.events && !t.events[id].processed && t.events[id].retry <= MAX_RETRIES
    ensures id in Run(parse, t, ms).events
    ensures EndsAs(t.events[id], ProofsFor(t.proofs, id), Marks(parse, ms, id, t.events[id].identity in t.identities),
                   Run(parse, t, ms).events[id], ProofsFor(Run(parse, t, ms).proofs, id))
    decreases |ms|
  {
    if ms != [] {
      var e := t.events[id];
      var known := e.identity in t.identities;
      HandleAffects(parse, t, ms[0], id);
      MarksStep(parse, ms, id, known);
      var u := Handle(parse, t, ms[0]);
      assert Run(parse, t, ms) == Run(parse, u, ms[1..]);
      hide Handle, WellFormed, Run, Marks, MarkOf, LeadingFailures, ProofsFor, EndsAs;
      var v := Run(parse, u, ms[1..]);
      if u.events[id].processed {
        ClosedStays(parse, u, ms[1..], id);
      } else {
        OutboxRun(parse, u, ms[1..], id);
      }
      EndsStep(e, ProofsFor(t.proofs, id), MarkOf(parse, ms[0], id, known), Marks(parse, ms[1..], id, known),
               Marks(parse, ms, id, known), u.events[id], ProofsFor(u.proofs, id), v.events[id],
                   ProofsFor(v.proofs, id));
    }
  }

  /** One message and then the rest: the ending composes. */
  lemma EndsStep(
      e: Event, saved: nat, first: seq<Mark>, rest: seq<Mark>, h: seq<Mark>, e': Event, saved': nat, f: Event,
      proofs: nat)
    requires !e.processed && e.retry <= MAX_RETRIES && first in {[], [Failed], [Succeeded]}
    requires LeadingFailures(h) == if first == [] then LeadingFailures(rest)
        else if first == [Failed] then 1 + LeadingFailures(rest) else 0
    requires Succeeded in h <==> first == [Succeeded] || Succeeded in rest
    requires e' == if first == [] then e
                   else if first == [Failed] then e.(retry := e.retry + 1, processed := e.retry >= MAX_RETRIES)
                   else e.(processed := true)
    requires saved' == saved + if first == [Succeeded] then 1 else 0
    requires if e'.processed then f == e' && proofs == saved' else EndsAs(e', saved', rest, f, proofs)
    ensures EndsAs(e, saved, h, f, proofs)
  {
  }

  lemma MarksStep(parse: string -> Option<Uuid>, ms: seq<Message>, id: Uuid, known: bool)
    requires ms != []
    ensures var h, rest := Marks(parse, ms, id, known), Marks(parse, ms[1..], id, known);
            var first := MarkOf(parse, ms[0], id, known);
            && h == first + rest
            && first in {[], [Failed], [Succeeded]}
            && LeadingFailures(h) == (if first == [] then LeadingFailures(rest)
                                      else if first == [Failed] then 1 + LeadingFailures(rest) else 0)
            && (Succeeded in h <==> first == [Succeeded] || Succeeded in rest)
  {
    var first, rest := MarkOf(parse, ms[0], id, known), Marks(parse, ms[1..], id, known);
    assert [] + rest == rest;
    assert first == [Failed] ==> (first + rest)[1..] == rest;
  }

  /** A closed event never changes again and gets no further proof. */
  lemma {:induction false} ClosedStays(parse: string -> Option<Uuid>, t: Tables, ms: seq<Message>, id: Uuid)
    requires WellFormed(parse, t) && (forall i | 0 <= i < |ms| :: WellFormedMessage(parse, ms[i]))
    requires id in t.events && t.events[id].processed
    ensures var u := Run(parse, t, ms);
            id in u.events && u.events[id] == t.events[id] && ProofsFor(u.proofs, id) == ProofsFor(t.proofs, id)
    decreases |ms|
  {
    if ms != [] {
      HandleAffects(parse, t, ms[0], id);
      hide Handle, WellFormed;
      ClosedStays(parse, Handle(parse, t, ms[0]), ms[1..], id);
    }
  }

  // ----- what the consumers write -----

  /** A failure is always stored; it panics on a malformed id and fails on an event that is not open. */
  lemma FailureIsStored(parse: string -> Option<Uuid>, t: Tables, row: FailureRow)
    ensures var (u, out) := HandleFailure(parse, t, row);
            && u.failures == t.failures + [row]
            && u.proofs == t.proofs && u.schemas == t.schemas && u.identities == t.identities
            && (out == Panic <==> parse(row.eventId) == None)
            && (out == Done <==>
                  parse(row.eventId).Some?
                  && var id := parse(row.eventId).value; id in t.events && !t.events[id].processed)
            && (out != Done ==> u.events == t.events)
  {
  }

  lemma {:induction false} FirstSchema(rows: seq<SchemaRow>, schema: string)
    ensures match FindSchema(rows, schema)
            case Some(i) => i < |rows| && rows[i].schema == schema && forall j | 0 <= j < i :: rows[j].schema != schema
            case None => forall j | 0 <= j < |rows| :: rows[j].schema != schema
  {
    if rows != [] { FirstSchema(rows[1..], schema); }
  }

  /**
   A result for an open event of a known identity saves one proof, with the signature as
   its reference, the account, the identity's row and the row of the event's schema,
   which is added only when there is none, and closes the event.
   */
  lemma ResultIsStored(
    parse: string -> Option<Uuid>, t: Tables, eventId: string, id: Uuid, signature: string, account: string)
    requires WellFormed(parse, t) && parse(eventId) == Some(id) && id in t.events && !t.events[id].processed
    requires t.events[id].identity in t.identities
    ensures var (u, out) := HandleResult(parse, t, eventId, signature, account);
            var e := t.events[id];
            && out == Done
            && u.events == t.events[id := e.(processed := true)]
            && u.failures == t.failures && u.identities == t.identities
            && |u.proofs| == |t.proofs| + 1 && u.proofs[..|t.proofs|] == t.proofs
            && var p := u.proofs[|t.proofs|];
               && p.signature == signature && p.account == account && p.event == id
               && p.owner == t.identities[e.identity]
               && p.schemaRow < |u.schemas| && u.schemas[p.schemaRow].schema == e.schema
               && (if exists j :: 0 <= j < |t.schemas| && t.schemas[j].schema == e.schema then u.schemas == t.schemas
                   else u.schemas == t.schemas + [SchemaRow(e.schema, t.identities[e.identity])])
  {
    FirstSchema(t.schemas, t.events[id].schema);
    hide FindSchema;
  }

  /** A result for an open event of an unknown identity changes nothing. */
  lemma UnknownIdentity(
    parse: string -> Option<Uuid>, t: Tables, eventId: string, id: Uuid, signature: string, account: string)
    requires parse(eventId) == Some(id) && id in t.events && !t.events[id].processed
    requires t.events[id].identity !in t.identities
    ensures HandleResult(parse, t, eventId, signature, account) == (t, Error)
  {
  }

  // ----- from an empty database -----

  function Empty(identities: map<string, int>): Tables { Tables(map[], identities, [], [], []) }

  /** Every proof was saved for an event that is there, or for none. */
  predicate ProofsOwned(t: Tables) {
    forall i | 0 <= i < |t.proofs| :: t.proofs[i].event == "" || t.proofs[i].event in t.events
  }

  lemma HandleKeepsOrder(parse: string -> Option<Uuid>, t: Tables, m: Message)
    requires WellFormed(parse, t) && ProofsOwned(t) && WellFormedMessage(parse, m)
    ensures var u := Handle(parse, t, m);
            WellFormed(parse, u) && ProofsOwned(u) && u.identities == t.identities
  {
    hide FindSchema;
  }

  lemma {:induction false} RunKeepsOrder(parse: string -> Option<Uuid>, t: Tables, ms: seq<Message>)
    requires WellFormed(parse, t) && ProofsOwned(t) && forall i | 0 <= i < |ms| :: WellFormedMessage(parse, ms[i])
    ensures var u := Run(parse, t, ms);
            WellFormed(parse, u) && ProofsOwned(u) && u.identities == t.identities
    decreases |ms|
  {
    if ms != [] {
      HandleKeepsOrder(parse, t, ms[0]);
      hide Handle, WellFormed, ProofsOwned;
      RunKeepsOrder(parse, Handle(parse, t, ms[0]), ms[1..]);
    }
  }

  lemma {:induction false} RunSplits(parse: string -> Option<Uuid>, t: Tables, a: seq<Message>, b: seq<Message>)
    ensures Run(parse, t, a + b) == Run(parse, Run(parse, t, a), b)
    decreases |a|
  {
    hide Handle;
    if a == [] {
      assert a + b == b;
    } else {
      assert (a + b)[1..] == a[1..] + b;
      RunSplits(parse, Handle(parse, t, a[0]), a[1..], b);
    }
  }

  lemma {:induction false} UnknownHasNoProofs(proofs: seq<ProofRow>, id: Uuid)
    requires forall i | 0 <= i < |proofs| :: proofs[i].event != id
    ensures ProofsFor(proofs, id) == 0
  {
    if proofs != [] { UnknownHasNoProofs(proofs[..|proofs| - 1], id); }
  }

  /** From an empty database, whatever came before its creation, an event ends as the messages after it say. */
  lemma RunFromEmpty(
    parse: string -> Option<Uuid>, identities: map<string, int>, before: seq<Message>, m: Message, after: seq<Message>)
    requires parse("") == None && m.NewEvent? && WellFormedMessage(parse, m)
    requires forall i | 0 <= i < |before| :: WellFormedMessage(parse, before[i])
    requires forall i | 0 <= i < |after| :: WellFormedMessage(parse, after[i])
    requires m.id !in Run(parse, Empty(identities), before).events
    ensures var u := Run(parse, Empty(identities), before + [m] + after);
            var e := Event(m.id, m.identity, m.schema, m.request, false, 0, false);
            && m.id in u.events
            && EndsAs(e, 0, Marks(parse, after, m.id, m.identity in identities), u.events[m.id],
                ProofsFor(u.proofs, m.id))
  {
    RunKeepsOrder(parse, Empty(identities), before);
    var t := Run(parse, Empty(identities), before);
    assert m.id != "";
    UnknownHasNoProofs(t.proofs, m.id);
    var n := Handle(parse, t, m);
    HandleKeepsOrder(parse, t, m);
    RunSplits(parse, Empty(identities), before + [m], after);
    RunSplits(parse, Empty(identities), before, [m]);
    assert Run(parse, t, [m]) == n by { assert [m][1..] == []; assert Run(parse, n, []) == n; }
    hide Run, WellFormed, Marks, EndsAs, ProofsFor, ProofsOwned;
    OutboxRun(parse, n, after, m.id);
  }

  /**
   A result for an event that is not open saves nothing, exactly when no identity has the empty
   id; otherwise it saves a stray proof and panics.
   */
  lemma LateResult(parse: string -> Option<Uuid>, t: Tables, id: Uuid, signature: string, account: string)
    requires WellFormed(parse, t) && parse(id) == Some(id) && GetEvent(t, id) == None
    ensures HandleResult(parse, t, id, signature, account).0.proofs == t.proofs <==> "" !in t.identities
    ensures HandleResult(parse, t, id, signature, account) == (t, Error) <==> "" !in t.identities
    ensures HandleResult(parse, t, id, signature, account).1 == Panic <==> "" in t.identities
  {
    if "" in t.identities {
      var u := FindOrCreateSchema(t, "", t.identities[""]).0;
      assert |HandleResult(parse, t, id, signature, account).0.proofs| == |u.proofs| + 1;
    }
  }
}
