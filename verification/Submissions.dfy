/**
 Concurrent calls on one request: the creation handler saves it and, for a callback,
 loads and saves it again; `VerifySubmission` loads it, decides, deletes it and records
 the verdict, all in separate steps on shared maps.  What the decision looks at is
 left open, and verdicts are not purged.
 */
module Submissions {
  import opened Wrappers

  /** How far a call has come with a request. */
  datatype Call =
    | NotFound
    | Loaded(id: string)
    | Accepted(id: string)
    | Expired(id: string)
    | Verified(id: string)
    | Failed(id: string)
  {
    predicate Took(x: string) { (Accepted? || Verified?) && id == x }
    predicate WillFail(x: string) { (Loaded? || Expired?) && id == x }
    predicate Active(x: string) { (Loaded? || Expired? || Accepted?) && id == x }
  }

  /**
   `creating` holds the requests whose handler has still to load them again, `editing`
   those it has loaded and has still to save.  `known` records every id ever created and
   `reentered` every id that was saved again after it had been deleted.  A verdict is
   true for "verified".
   */
  datatype State = State(
    store: set<string>,
    known: set<string>,
    creating: set<string>,
    editing: set<string>,
    reentered: set<string>,
    calls: map<nat, Call>,
    verdicts: map<string, bool>)

  const INIT: State := State({}, {}, {}, {}, {}, map[], map[])

  /** `Accept` and `Expire` delete the request; `Record` sets the verdict that the call has come to. */
  datatype Action =
    | Create(id: string, callback: bool)
    | Reload(id: string)
    | Resave(id: string)
    | Load(x: nat, id: string)
    | Accept(x: nat)
    | Expire(x: nat)
    | Record(x: nat)

  predicate Enabled(s: State, a: Action) {
    match a
    case Create(id, _) => id !in s.known
    case Reload(id) => id in s.creating
    case Resave(id) => id in s.editing
    case Load(x, _) => x !in s.calls
    case Accept(x) => x in s.calls && s.calls[x].Loaded?
    case Expire(x) => x in s.calls && s.calls[x].Loaded?
    case Record(x) => x in s.calls && (s.calls[x].Loaded? || s.calls[x].Accepted? || s.calls[x].Expired?)
  }

  function Step(s: State, a: Action): State
    requires Enabled(s, a)
  {
    match a
    case Create(id, callback) =>
      s.(store := s.store + {id}, known := s.known + {id}, creating := s.creating + if callback then {id} else {})
    case Reload(id) =>
      s.(creating := s.creating - {id}, editing := s.editing + if id in s.store then {id} else {})
    case Resave(id) =>
      s.(store := s.store + {id}, editing := s.editing - {id},
         reentered := s.reentered + if id in s.store then {} else {id})
    case Load(x, id) => s.(calls := s.calls[x := if id in s.store then Loaded(id) else NotFound])
    case Accept(x) => s.(store := s.store - {s.calls[x].id}, calls := s.calls[x := Accepted(s.calls[x].id)])
    case Expire(x) => s.(store := s.store - {s.calls[x].id}, calls := s.calls[x := Expired(s.calls[x].id)])
    case Record(x) =>
      var id := s.calls[x].id;
      if s.calls[x].Accepted? then s.(calls := s.calls[x := Verified(id)], verdicts := s.verdicts[id := true])
      else s.(calls := s.calls[x := Failed(id)], verdicts := s.verdicts[id := false])
  }

  function Run(schedule: seq<Action>): Option<State> {
    if schedule == [] then Some(INIT)
    else
      var n := |schedule| - 1;
      var s :- Run(schedule[..n]);
      if Enabled(s, schedule[n]) then Some(Step(s, schedule[n])) else None
  }

  // ----- invariant -----

  predicate Holds(s: State, x: nat, id: string) { x in s.calls && !s.calls[x].NotFound? && s.calls[x].id == id }

  /** A call holds a known request, which has left the store once the call has deleted it. */
  predicate CallOk(s: State, c: Call) {
    c.NotFound? ||
    (&& c.id in s.known
     && (c.Accepted? || c.Expired? || c.Verified? ==> c.id !in s.store || c.id in s.reentered))
  }

  /** A "verified" verdict was recorded by a call. */
  ghost predicate VerdictOk(s: State, id: string) {
    id in s.verdicts && s.verdicts[id] ==> exists x :: x in s.calls && s.calls[x] == Verified(id)
  }

  /** A request leaves the store only through a call. */
  ghost predicate GoneOk(s: State, id: string) {
    id in s.known && id !in s.store ==> exists x :: Holds(s, x, id)
  }

  ghost predicate Inv(s: State) {
    && s.store <= s.known && s.creating <= s.known && s.editing <= s.known
    && (forall x | x in s.calls :: CallOk(s, s.calls[x]))
    && (forall id :: VerdictOk(s, id))
    && (forall id :: GoneOk(s, id))
  }

  lemma StepKeepsInv(s: State, a: Action)
    requires Inv(s) && Enabled(s, a)
    ensures Inv(Step(s, a))
  {
    var n := Step(s, a);
    forall x | x in n.calls ensures CallOk(n, n.calls[x]) {
      if x in s.calls { assert CallOk(s, s.calls[x]); }
    }
    forall id ensures VerdictOk(n, id) { StepKeepsVerdicts(s, a, id); }
    forall id ensures GoneOk(n, id) { StepKeepsGone(s, a, id); }
    hide VerdictOk, GoneOk, CallOk;
  }

  lemma StepKeepsVerdicts(s: State, a: Action, id: string)
    requires VerdictOk(s, id) && Enabled(s, a)
    ensures VerdictOk(Step(s, a), id)
  {
    var n := Step(s, a);
    if id in s.verdicts && s.verdicts[id] {
      var x :| x in s.calls && s.calls[x] == Verified(id);
      assert n.calls[x] == Verified(id);
    }
    if a.Record? && n.calls[a.x] == Verified(id) { assert a.x in n.calls; }
  }

  lemma StepKeepsGone(s: State, a: Action, id: string)
    requires GoneOk(s, id) && Enabled(s, a)
    ensures GoneOk(Step(s, a), id)
  {
    var n := Step(s, a);
    if id in s.known && id !in s.store {
      var x :| Holds(s, x, id);
      assert Holds(n, x, id);
    }
    if (a.Accept? || a.Expire?) && s.calls[a.x].id == id { assert Holds(n, a.x, id); }
  }

  lemma {:induction false} InvAlways(schedule: seq<Action>)
    ensures Run(schedule).Some? ==> Inv(Run(schedule).value)
  {
    hide Step, Enabled;
    if schedule != [] && Run(schedule).Some? {
      var n := |schedule| - 1;
      InvAlways(schedule[..n]);
      hide Inv;
      StepKeepsInv(Run(schedule[..n]).value, schedule[n]);
    }
  }

  // ----- coming back -----

  ghost predicate CanReturn(before: seq<Action>, id: string) {
    exists after :: Run(before + after).Some? && id in Run(before + after).value.store
  }

  /**
   A deleted request can come back into the store exactly when its creation handler loaded it
   before and has yet to save it.
   */
  lemma CanReturnIff(before: seq<Action>, id: string)
    requires Run(before).Some? && id in Run(before).value.known && id !in Run(before).value.store
    ensures CanReturn(before, id) <==> id in Run(before).value.editing
  {
    if id in Run(before).value.editing {
      RunOneMore(before, Resave(id));
      assert id in Run(before + [Resave(id)]).value.store;
    } else if after :| Run(before + after).Some? && id in Run(before + after).value.store {
      GoneForGood(before, after, id);
    }
  }

  lemma {:induction false} GoneForGood(before: seq<Action>, after: seq<Action>, id: string)
    requires Run(before).Some? && Run(before + after).Some?
    requires var s := Run(before).value; id in s.known && id !in s.store && id !in s.editing
    ensures var t := Run(before + after).value; id in t.known && id !in t.store && id !in t.editing
  {
    if after == [] {
      assert before + after == before;
    } else {
      var n := |after| - 1;
      assert (before + after)[..|before| + n] == before + after[..n];
      assert (before + after)[|before| + n] == after[n];
      assert Enabled(Run(before + after[..n]).value, after[n]);
      assert Run(before + after).value == Step(Run(before + after[..n]).value, after[n]);
      GoneForGood(before, after[..n], id);
      hide Run, Step, Enabled;
      GoneForGoodStep(Run(before + after[..n]).value, after[n], id);
    }
  }

  lemma GoneForGoodStep(s: State, a: Action, id: string)
    requires Enabled(s, a) && id in s.known && id !in s.store && id !in s.editing
    ensures var t := Step(s, a); id in t.known && id !in t.store && id !in t.editing
  {
  }

  // ----- single use -----

  /** A load of the request while another call still holds it undecided. */
  predicate OverlapsAt(schedule: seq<Action>, k: nat, x: nat, y: nat, id: string) {
    && k < |schedule| && schedule[k] == Load(y, id)
    && Run(schedule[..k]).Some?
    && var s := Run(schedule[..k]).value;
       id in s.store && x in s.calls && s.calls[x] == Loaded(id)
  }

  predicate BothTook(s: State, x: nat, y: nat, id: string) {
    x != y && x in s.calls && y in s.calls && s.calls[x].Took(id) && s.calls[y].Took(id)
  }

  /** The load of one of two calls overlapped the other. */
  ghost predicate Overlapped(schedule: seq<Action>, x: nat, y: nat, id: string) {
    exists k: nat :: OverlapsAt(schedule, k, x, y, id) || OverlapsAt(schedule, k, y, x, id)
  }

  lemma OverlapExtends(schedule: seq<Action>, a: Action, x: nat, y: nat, id: string)
    requires Overlapped(schedule, x, y, id)
    ensures Overlapped(schedule + [a], x, y, id)
  {
    var k: nat :| OverlapsAt(schedule, k, x, y, id) || OverlapsAt(schedule, k, y, x, id);
    assert (schedule + [a])[..k] == schedule[..k];
    assert OverlapsAt(schedule + [a], k, x, y, id) || OverlapsAt(schedule + [a], k, y, x, id);
  }

  /** Of two calls that hold a request without overlap, the earlier one had failed it, or it came back. */
  lemma {:induction false} HoldersOverlap(schedule: seq<Action>, x: nat, y: nat, id: string)
    requires Run(schedule).Some? && x != y && Holds(Run(schedule).value, x, id) && Holds(Run(schedule).value, y, id)
    ensures var s := Run(schedule).value;
            Overlapped(schedule, x, y, id) || id in s.reentered || s.calls[x].Failed? || s.calls[y].Failed?
  {
    var n := |schedule| - 1;
    var front, a := schedule[..n], schedule[n];
    assert schedule == front + [a];
    InvAlways(front);
    if Holds(Run(front).value, x, id) && Holds(Run(front).value, y, id) {
      HoldersOverlap(front, x, y, id);
      if Overlapped(front, x, y, id) { OverlapExtends(front, a, x, y, id); }
    } else if Holds(Run(front).value, x, id) {
      NewHolder(front, a, x, y, id);
    } else {
      hide Overlapped;
      NewHolder(front, a, y, x, id);
    }
  }

  lemma NewHolder(front: seq<Action>, a: Action, x: nat, y: nat, id: string)
    requires Run(front).Some? && Inv(Run(front).value) && Enabled(Run(front).value, a) && x != y
    requires Holds(Run(front).value, x, id) && !Holds(Run(front).value, y, id)
        && Holds(Step(Run(front).value, a), y, id)
    ensures a == Load(y, id)
    ensures || (Overlapped(front + [a], x, y, id) && Overlapped(front + [a], y, x, id))
            || id in Run(front).value.reentered || Run(front).value.calls[x].Failed?
        || Run(front).value.calls[x].Failed?
  {
    var s := Run(front).value;
    assert CallOk(s, s.calls[x]);
    if s.calls[x].Loaded? {
      assert (front + [a])[..|front|] == front;
      assert OverlapsAt(front + [a], |front|, x, y, id);
    }
  }

  /** Two submissions take one request only if the load of one overlapped the other, or the request came back. */
  lemma TakenTwiceNeedsOverlap(schedule: seq<Action>, x: nat, y: nat, id: string)
    requires Run(schedule).Some? && BothTook(Run(schedule).value, x, y, id)
    ensures Overlapped(schedule, x, y, id) || id in Run(schedule).value.reentered
  {
    HoldersOverlap(schedule, x, y, id);
  }

  /** After such an overlap both can take it, so the condition is exact. */
  lemma OverlapCanTakeTwice(schedule: seq<Action>, x: nat, y: nat, id: string) returns (after: seq<Action>)
    requires Run(schedule).Some? && schedule != [] && OverlapsAt(schedule, |schedule| - 1, x, y, id)
    ensures Run(schedule + after).Some? && BothTook(Run(schedule + after).value, x, y, id)
  {
    RunOneMore(schedule, Accept(x));
    RunOneMore(schedule + [Accept(x)], Accept(y));
    after := [Accept(x), Accept(y)];
    assert schedule + after == schedule + [Accept(x)] + [Accept(y)];
  }

  /** So can a second call after a request that was taken has come back. */
  lemma ReturnCanTakeTwice(schedule: seq<Action>, x: nat, y: nat, id: string) returns (after: seq<Action>)
    requires Run(schedule).Some? && y !in Run(schedule).value.calls
    requires var s := Run(schedule).value; x in s.calls && s.calls[x].Took(id) && id in s.editing
    ensures Run(schedule + after).Some? && BothTook(Run(schedule + after).value, x, y, id)
  {
    RunOneMore(schedule, Resave(id));
    RunOneMore(schedule + [Resave(id)], Load(y, id));
    RunOneMore(schedule + [Resave(id)] + [Load(y, id)], Accept(y));
    after := [Resave(id), Load(y, id), Accept(y)];
    assert schedule + after == schedule + [Resave(id)] + [Load(y, id)] + [Accept(y)];
  }

  // ----- the verdict -----

  ghost predicate VerdictIsFinal(before: seq<Action>, id: string) {
    forall after :: Run(before + after).Some? ==>
                      id in Run(before + after).value.verdicts && Run(before + after).value.verdicts[id]
  }

  /** No call can still fail the request: none holds it undecided, and none can find it any more. */
  predicate Settled(s: State, id: string) {
    && (forall x | x in s.calls :: !s.calls[x].WillFail(id))
    && id !in s.store && id !in s.editing
  }

  lemma FreshCall(calls: set<nat>) returns (x: nat)
    ensures forall k | k in calls :: k < x
    decreases |calls|
  {
    x := 0;
    if k :| k in calls {
      var above := FreshCall(calls - {k});
      x := if above <= k then k + 1 else above;
      forall j | j in calls ensures j < x { assert j == k || j in calls - {k}; }
    }
  }

  /**
   A "verified" verdict is never replaced by "failed" exactly when no call holds the
   request undecided or expired, it is not in the store, and its creation handler is
   not about to save it again.
   */
  lemma VerdictIsFinalIff(before: seq<Action>, id: string)
    requires Run(before).Some? && id in Run(before).value.verdicts && Run(before).value.verdicts[id]
    ensures VerdictIsFinal(before, id) <==> Settled(Run(before).value, id)
  {
    var s := Run(before).value;
    if Settled(s, id) {
      forall after | Run(before + after).Some?
        ensures id in Run(before + after).value.verdicts && Run(before + after).value.verdicts[id]
      {
        VerdictStays(before, after, id);
      }
    } else {
      var after := Overwrite(before, id);
      assert !Run(before + after).value.verdicts[id];
    }
  }

  lemma Overwrite(before: seq<Action>, id: string) returns (after: seq<Action>)
    requires Run(before).Some? && !Settled(Run(before).value, id)
    ensures Run(before + after).Some?
    ensures id in Run(before + after).value.verdicts && !Run(before + after).value.verdicts[id]
  {
    var s := Run(before).value;
    if x :| x in s.calls && s.calls[x].WillFail(id) {
      RunOneMore(before, Record(x));
      after := [Record(x)];
    } else if id in s.store {
      after := FailAgain(before, id);
    } else {
      RunOneMore(before, Resave(id));
      var rest := FailAgain(before + [Resave(id)], id);
      after := [Resave(id)] + rest;
      assert before + after == before + [Resave(id)] + rest;
    }
  }

  lemma FailAgain(before: seq<Action>, id: string) returns (after: seq<Action>)
    requires Run(before).Some? && id in Run(before).value.store
    ensures Run(before + after).Some?
    ensures id in Run(before + after).value.verdicts && !Run(before + after).value.verdicts[id]
  {
    var x := FreshCall(Run(before).value.calls.Keys);
    RunOneMore(before, Load(x, id));
    RunOneMore(before + [Load(x, id)], Record(x));
    after := [Load(x, id), Record(x)];
    assert before + after == before + [Load(x, id)] + [Record(x)];
  }

  lemma {:induction false} VerdictStays(before: seq<Action>, after: seq<Action>, id: string)
    requires Run(before).Some? && Run(before + after).Some?
    requires id in Run(before).value.verdicts && Run(before).value.verdicts[id] && Settled(Run(before).value, id)
    ensures var t := Run(before + after).value; id in t.verdicts && t.verdicts[id] && Settled(t, id)
  {
    hide Step, Enabled, Settled;
    if after == [] {
      assert before + after == before;
    } else {
      var n := |after| - 1;
      assert (before + after)[..|before| + n] == before + after[..n];
      assert (before + after)[|before| + n] == after[n];
      VerdictStays(before, after[..n], id);
      InvAlways(before + after[..n]);
      hide Run, Inv;
      VerdictStaysOneStep(Run(before + after[..n]).value, after[n], id);
    }
  }

  lemma VerdictStaysOneStep(s: State, a: Action, id: string)
    requires Inv(s) && Enabled(s, a) && id in s.verdicts && s.verdicts[id] && Settled(s, id)
    ensures var t := Step(s, a); id in t.verdicts && t.verdicts[id] && Settled(t, id)
  {
    assert VerdictOk(s, id);
    var v :| v in s.calls && s.calls[v] == Verified(id);
    assert CallOk(s, s.calls[v]);
    var t := Step(s, a);
    forall x | x in t.calls ensures !t.calls[x].WillFail(id) {
      assert x in s.calls ==> !s.calls[x].WillFail(id);
    }
  }

  /** No load of the request falls into its creation, or between another call's load of it and that call's verdict. */
  ghost predicate Serial(schedule: seq<Action>, id: string) {
    forall k | 0 <= k < |schedule| :: SerialAt(schedule, k, id)
  }

  predicate SerialAt(schedule: seq<Action>, k: nat, id: string)
    requires k < |schedule|
  {
    schedule[k].Load? && schedule[k].id == id && Run(schedule[..k]).Some? ==> Free(Run(schedule[..k]).value, id)
  }

  /** Nobody is at work on the request. */
  predicate Free(s: State, id: string) {
    && (forall x | x in s.calls :: !s.calls[x].Active(id))
    && id !in s.creating && id !in s.editing
  }

  ghost predicate OneAtATime(s: State, id: string) {
    && (forall x, y | x in s.calls && y in s.calls && s.calls[x].Active(id) && s.calls[y].Active(id) :: x == y)
    && (forall x, y | x in s.calls && y in s.calls && s.calls[x] == Verified(id) :: !s.calls[y].Active(id))
    && (forall x | Holds(s, x, id) :: id !in s.creating && id !in s.editing)
    && id !in s.reentered
  }

  /** Calls that do not overlap keep the verdict of an accepted one for good. */
  lemma SerialVerdictsAreFinal(schedule: seq<Action>, id: string)
    requires Run(schedule).Some? && Serial(schedule, id)
    requires id in Run(schedule).value.verdicts && Run(schedule).value.verdicts[id]
    ensures VerdictIsFinal(schedule, id)
  {
    InvAlways(schedule);
    SerialRuns(schedule, id);
    var s := Run(schedule).value;
    assert VerdictOk(s, id);
    var v :| v in s.calls && s.calls[v] == Verified(id);
    assert CallOk(s, s.calls[v]) && Holds(s, v, id);
    hide Run, Serial, VerdictIsFinal, Inv;
    VerdictIsFinalIff(schedule, id);
  }

  lemma {:induction false} SerialRuns(schedule: seq<Action>, id: string)
    requires Run(schedule).Some? && Serial(schedule, id)
    ensures OneAtATime(Run(schedule).value, id)
  {
    if schedule != [] {
      var n := |schedule| - 1;
      forall k: nat | k < n ensures SerialAt(schedule[..n], k, id) {
        assert SerialAt(schedule, k, id);
        assert schedule[..n][..k] == schedule[..k];
      }
      SerialRuns(schedule[..n], id);
      InvAlways(schedule[..n]);
      assert SerialAt(schedule, n, id);
      var s := Run(schedule[..n]).value;
      hide Run, Serial;
      SerialStep(s, schedule[n], id);
    }
  }

  lemma SerialStep(s: State, a: Action, id: string)
    requires Inv(s) && Enabled(s, a) && OneAtATime(s, id)
    requires a.Load? && a.id == id ==> Free(s, id)
    ensures OneAtATime(Step(s, a), id)
  {
    SerialReentry(s, a, id);
    SerialActive(s, a, id);
  }

  lemma SerialReentry(s: State, a: Action, id: string)
    requires Inv(s) && Enabled(s, a) && OneAtATime(s, id)
    requires a.Load? && a.id == id ==> Free(s, id)
    ensures var n := Step(s, a);
            id !in n.reentered && forall x | Holds(n, x, id) :: id !in n.creating && id !in n.editing
  {
    assert GoneOk(s, id);
    var n := Step(s, a);
    forall x | Holds(n, x, id) ensures id !in n.creating && id !in n.editing {
      if x in s.calls { assert CallOk(s, s.calls[x]); }
      assert Holds(s, x, id) || a == Load(x, id);
    }
  }

  lemma SerialActive(s: State, a: Action, id: string)
    requires Inv(s) && Enabled(s, a) && OneAtATime(s, id)
    requires a.Load? && a.id == id ==> Free(s, id)
    ensures var n := Step(s, a);
            && (forall x, y | x in n.calls && y in n.calls && n.calls[x].Active(id) && n.calls[y].Active(id) :: x == y)
            && (forall x, y | x in n.calls && y in n.calls && n.calls[x] == Verified(id) :: !n.calls[y].Active(id))
  {
    forall x | x in s.calls && s.calls[x] == Verified(id) ensures id !in s.store { assert CallOk(s, s.calls[x]); }
    hide Inv, CallOk;
  }

  /** Two overlapping submissions: a request verified by one is reported as failed because of the other. */
  lemma VerdictCanBeOverwritten() returns (schedule: seq<Action>)
    ensures Run(schedule).Some?
    ensures var s := Run(schedule).value;
            0 in s.calls && s.calls[0] == Verified("r") && "r" in s.verdicts && !s.verdicts["r"]
  {
    var s1 := [Create("r", false)];
    var s2 := s1 + [Load(0, "r")];
    var s3 := s2 + [Load(1, "r")];
    var s4 := s3 + [Accept(0)];
    var s5 := s4 + [Record(0)];
    schedule := s5 + [Record(1)];
    RunOneMore([], Create("r", false));
    assert [] + s1 == s1;
    RunOneMore(s1, Load(0, "r"));
    RunOneMore(s2, Load(1, "r"));
    RunOneMore(s3, Accept(0));
    RunOneMore(s4, Record(0));
    RunOneMore(s5, Record(1));
  }

  lemma RunOneMore(schedule: seq<Action>, a: Action)
    requires Run(schedule).Some? && Enabled(Run(schedule).value, a)
    ensures Run(schedule + [a]) == Some(Step(Run(schedule).value, a))
  {
    assert (schedule + [a])[..|schedule|] == schedule;
  }
}
