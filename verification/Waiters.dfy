/**
 The blocking-wait protocol of the presentation service: `WaitForResult` and
 `notifyWaiters`, interleaved arbitrarily.  An action is one critical section,
 one channel operation or one choice of `select`.
 */
module Waiters {
  import opened Wrappers

  type Id = string
  type Chan = nat

  datatype VerifyResult = VerifyResult(ok: bool, reason: string)

  // ----- the listener table -----

  function ListOf(waiters: map<Id, seq<Chan>>, id: Id): seq<Chan> {
    if id in waiters then waiters[id] else []
  }

  function Registered(waiters: map<Id, seq<Chan>>, id: Id, ch: Chan): map<Id, seq<Chan>> {
    waiters[id := ListOf(waiters, id) + [ch]]
  }

  /** A list without one channel. */
  function Without(list: seq<Chan>, ch: Chan): seq<Chan> {
    if list == [] then []
    else
      var n := |list| - 1;
      var front := Without(list[..n], ch);
      if list[n] != ch then front + [list[n]] else front
  }

  function CleanedUp(waiters: map<Id, seq<Chan>>, id: Id, ch: Chan): map<Id, seq<Chan>> {
    var rest := Without(ListOf(waiters, id), ch);
    if rest == [] then waiters - {id} else waiters[id := rest]
  }

  predicate Distinct(list: seq<Chan>) {
    forall i, j | 0 <= i < j < |list| :: list[i] != list[j]
  }

  /** Removing a channel keeps every other one, and the order of the others. */
  lemma {:induction false} WithoutKeepsOthers(list: seq<Chan>, ch: Chan)
    ensures forall x :: x in Without(list, ch) <==> x in list && x != ch
    ensures Distinct(list) ==> Distinct(Without(list, ch))
  {
    if list != [] {
      var n := |list| - 1;
      WithoutKeepsOthers(list[..n], ch);
      assert list == list[..n] + [list[n]];
      assert Distinct(list) ==> list[n] !in list[..n];
    }
  }

  lemma {:induction false} WithoutKeepsOrder(list: seq<Chan>, ch: Chan, k: nat)
    requires Distinct(list) && k < |list| && list[k] == ch
    ensures Without(list, ch) == list[..k] + list[k + 1..]
  {
    var n := |list| - 1;
    if k < n {
      WithoutKeepsOrder(list[..n], ch, k);
      assert list[..n][..k] + list[..n][k + 1..] + [list[n]] == list[..k] + list[k + 1..];
    } else {
      WithoutAbsent(list[..n], ch);
      assert list[..k] + list[k + 1..] == list[..n];
    }
  }

  lemma {:induction false} WithoutAbsent(list: seq<Chan>, ch: Chan)
    requires ch !in list
    ensures Without(list, ch) == list
  {
    if list != [] {
      var n := |list| - 1;
      WithoutAbsent(list[..n], ch);
      assert list[..n] + [list[n]] == list;
    }
  }

  /** A buffered channel of capacity one. */
  class Channel {
    var buffer: Option<VerifyResult>
  }

  /** The `waiters` field of the service and the three critical sections on it. */
  class ListenerTable {
    var waiters: map<Id, seq<Chan>>

    constructor ()
      ensures waiters == map[]
    {
      waiters := map[];
    }

    method Register(id: Id, ch: Chan)
      modifies this
      ensures waiters == Registered(old(waiters), id, ch)
      ensures id in waiters && waiters[id] == (if id in old(waiters) then old(waiters)[id] else []) + [ch]
      ensures waiters - {id} == old(waiters) - {id}
    {
      var list := if id in waiters then waiters[id] else [];
      waiters := waiters[id := list + [ch]];
    }

    method Take(id: Id) returns (list: seq<Chan>)
      modifies this
      ensures list == ListOf(old(waiters), id) && waiters == old(waiters) - {id}
    {
      list := if id in waiters then waiters[id] else [];
      waiters := waiters - {id};
    }

    method Cleanup(id: Id, ch: Chan)
      modifies this
      ensures waiters == CleanedUp(old(waiters), id, ch)
    {
      var list := if id in waiters then waiters[id] else [];
      var newList := [];
      for i := 0 to |list|
        invariant waiters == old(waiters)
        invariant newList == Without(list[..i], ch)
      {
        assert list[..i + 1][..i] == list[..i];
        if list[i] != ch { newList := newList + [list[i]]; }
      }
      assert list[..|list|] == list;
      if |newList| == 0 {
        waiters := waiters - {id};
      } else {
        waiters := waiters[id := newList];
      }
    }
  }

  /** The sending loop of `notifyWaiters`: a channel with a free buffer gets the result, a full one is skipped. */
  method SendEach(list: seq<Channel>, res: VerifyResult)
    modifies list
    ensures forall c | c in list :: c.buffer == if old(c.buffer) == None then Some(res) else old(c.buffer)
  {
    for i := 0 to |list|
      invariant forall c | c in list[..i] :: c.buffer == if old(c.buffer) == None then Some(res) else old(c.buffer)
      invariant forall c | c in list && c !in list[..i] :: c.buffer == old(c.buffer)
    {
      if list[i].buffer == None { list[i].buffer := Some(res); }
      assert list[..i + 1] == list[..i] + [list[i]];
    }
    assert list[..|list|] == list;
  }

  // ----- the interleaved protocol -----

  datatype Phase = Waiting | Received(res: VerifyResult) | TimedOut | Done

  datatype Waiter = Waiter(id: Id, phase: Phase)

  /** One call of `notifyWaiters` after it took the list; `pending` is what it has still to send. */
  datatype Notifier = Notifier(id: Id, res: VerifyResult, pending: seq<Chan>)

  /**
   `buffer` is each channel's content.  `takenBy`, `sends` and `dropped` are
   history: which call took a channel off the table, how often it was sent to,
   and which sends fell through to `default`.
   */
  datatype State = State(
    waiters: map<Id, seq<Chan>>,
    buffer: map<Chan, Option<VerifyResult>>,
    waiter: map<Chan, Waiter>,
    notifiers: map<nat, Notifier>,
    takenBy: map<Chan, nat>,
    sends: map<Chan, nat>,
    dropped: set<Chan>)

  datatype Action =
    | Register(ch: Chan, id: Id)
    | Take(n: nat, id: Id, res: VerifyResult)
    | Send(n: nat)
    | Receive(ch: Chan)
    | Timeout(ch: Chan)
    | Cleanup(ch: Chan)

  const INIT: State := State(map[], map[], map[], map[], map[], map[], {})

  /** Channels and notifier calls are fresh objects; the other actions need their program counter. */
  predicate Enabled(s: State, a: Action) {
    match a
    case Register(ch, _) => ch !in s.waiter && ch !in s.buffer && ch !in s.sends && ch !in s.takenBy
    case Take(n, _, _) => n !in s.notifiers
    case Send(n) => n in s.notifiers && s.notifiers[n].pending != [] && s.notifiers[n].pending[0] in s.buffer
                    && s.notifiers[n].pending[0] in s.sends
    case Receive(ch) => ch in s.waiter && s.waiter[ch].phase == Waiting && ch in s.buffer && s.buffer[ch].Some?
    case Timeout(ch) => ch in s.waiter && s.waiter[ch].phase == Waiting
    case Cleanup(ch) => ch in s.waiter && s.waiter[ch].phase == TimedOut
  }

  function Step(s: State, a: Action): State
    requires Enabled(s, a)
  {
    match a
    case Register(ch, id) =>
      s.(waiters := Registered(s.waiters, id, ch), waiter := s.waiter[ch := Waiter(id, Waiting)],
         buffer := s.buffer[ch := None], sends := s.sends[ch := 0])
    case Take(n, id, res) =>
      var list := ListOf(s.waiters, id);
      s.(waiters := s.waiters - {id}, notifiers := s.notifiers[n := Notifier(id, res, list)],
         takenBy := s.takenBy + (map ch | ch in list :: n))
    case Send(n) =>
      var t := s.notifiers[n];
      var ch := t.pending[0];
      var rest := s.notifiers[n := t.(pending := t.pending[1..])];
      if s.buffer[ch] == None then
        s.(notifiers := rest, buffer := s.buffer[ch := Some(t.res)], sends := s.sends[ch := s.sends[ch] + 1])
      else
        s.(notifiers := rest, dropped := s.dropped + {ch})
    case Receive(ch) =>
      s.(waiter := s.waiter[ch := s.waiter[ch].(phase := Received(s.buffer[ch].value))], buffer := s.buffer[ch := None])
    case Timeout(ch) =>
      s.(waiter := s.waiter[ch := s.waiter[ch].(phase := TimedOut)])
    case Cleanup(ch) =>
      s.(waiters := CleanedUp(s.waiters, s.waiter[ch].id, ch), waiter := s.waiter[ch := s.waiter[ch].(phase := Done)])
  }

  /** The state after a schedule, if every action of it was enabled. */
  function Run(schedule: seq<Action>): Option<State> {
    if schedule == [] then Some(INIT)
    else
      var n := |schedule| - 1;
      var s :- Run(schedule[..n]);
      if Enabled(s, schedule[n]) then Some(Step(s, schedule[n])) else None
  }

  // ----- invariant -----

  predicate Listed(s: State, ch: Chan) {
    ch in s.waiter && s.waiter[ch].id in s.waiters && ch in s.waiters[s.waiter[ch].id]
  }

  predicate Pending(s: State, ch: Chan) {
    ch in s.takenBy && s.takenBy[ch] in s.notifiers && ch in s.notifiers[s.takenBy[ch]].pending
  }

  /** Every list is non-empty, without repetition, and holds only untaken channels of its own request. */
  predicate ListsOk(s: State) {
    forall id | id in s.waiters ::
      && s.waiters[id] != []
      && Distinct(s.waiters[id])
      && forall ch | ch in s.waiters[id] :: ch in s.waiter && s.waiter[ch].id == id && ch !in s.takenBy
  }

  predicate NotifiersOk(s: State) {
    forall n | n in s.notifiers ::
      && Distinct(s.notifiers[n].pending)
      && forall ch | ch in s.notifiers[n].pending :: ch in s.takenBy && s.takenBy[ch] == n
  }

  predicate ChannelOk(s: State, ch: Chan)
    requires ch in s.waiter && ch in s.buffer && ch in s.sends && (ch in s.takenBy ==> s.takenBy[ch] in s.notifiers)
  {
    var phase := s.waiter[ch].phase;
    if ch !in s.takenBy || Pending(s, ch) then
      && s.sends[ch] == 0 && s.buffer[ch] == None && !phase.Received?
      && (ch !in s.takenBy ==> (Listed(s, ch) <==> phase != Done))
    else
      var res := s.notifiers[s.takenBy[ch]].res;
      && s.sends[ch] == 1
      && if phase.Received? then s.buffer[ch] == None && phase.res == res else s.buffer[ch] == Some(res)
  }

  /** A taken channel is a waiter of the request its taker notifies. */
  predicate TakersOk(s: State) {
    forall ch | ch in s.takenBy ::
      ch in s.waiter && s.takenBy[ch] in s.notifiers && s.notifiers[s.takenBy[ch]].id == s.waiter[ch].id
  }

  predicate Inv(s: State) {
    && s.buffer.Keys == s.waiter.Keys == s.sends.Keys
    && s.dropped == {}
    && ListsOk(s)
    && NotifiersOk(s)
    && TakersOk(s)
    && (forall ch | ch in s.waiter :: ChannelOk(s, ch))
  }

  /** A channel about which nothing changed stays as it was. */
  lemma ChannelFrame(s: State, t: State, c: Chan)
    requires c in s.waiter && c in s.buffer && c in s.sends && (c in s.takenBy ==> s.takenBy[c] in s.notifiers)
    requires c in t.waiter && c in t.buffer && c in t.sends && (c in t.takenBy ==> t.takenBy[c] in t.notifiers)
    requires t.waiter[c] == s.waiter[c] && t.buffer[c] == s.buffer[c] && t.sends[c] == s.sends[c]
    requires (Listed(t, c) <==> Listed(s, c)) && (Pending(t, c) <==> Pending(s, c))
    requires (c in t.takenBy <==> c in s.takenBy) && (c in s.takenBy ==> t.takenBy[c] == s.takenBy[c])
    requires c in s.takenBy ==> t.notifiers[s.takenBy[c]].res == s.notifiers[s.takenBy[c]].res
    ensures ChannelOk(t, c) <==> ChannelOk(s, c)
  {
    hide Listed, Pending;
  }

  lemma RegisterKeepsLists(s: State, a: Action)
    requires Inv(s) && a.Register? && Enabled(s, a)
    ensures ListsOk(Step(s, a)) && NotifiersOk(Step(s, a))
  {
    hide ChannelOk, TakersOk;
    assert forall id | id in s.waiters :: a.ch !in s.waiters[id];
  }

  lemma RegisterKeepsInv(s: State, a: Action)
    requires Inv(s) && a.Register? && Enabled(s, a)
    ensures Inv(Step(s, a))
  {
    RegisterKeepsLists(s, a);
    var t := Step(s, a);
    assert ChannelOk(t, a.ch);
    hide Distinct;
    forall c | c in t.waiter && c != a.ch ensures ChannelOk(t, c) {
      assert Listed(t, c) <==> Listed(s, c);
      ChannelFrame(s, t, c);
    }
    hide ChannelOk, ListsOk, NotifiersOk;
  }

  lemma TakeKeepsLists(s: State, a: Action)
    requires Inv(s) && a.Take? && Enabled(s, a)
    ensures ListsOk(Step(s, a)) && NotifiersOk(Step(s, a))
  {
    hide ChannelOk;
  }

  lemma TakeKeepsInv(s: State, a: Action)
    requires Inv(s) && a.Take? && Enabled(s, a)
    ensures Inv(Step(s, a))
  {
    TakeKeepsLists(s, a);
    TakeKeepsTakers(s, a);
    hide Distinct, NotifiersOk, ChannelOk, ListsOk, TakersOk;
    forall c | c in Step(s, a).waiter ensures ChannelOk(Step(s, a), c) {
      if c in ListOf(s.waiters, a.id) { TakenIsPending(s, a, c); } else { NotTaken(s, a, c); }
    }
  }

  lemma TakeKeepsTakers(s: State, a: Action)
    requires Inv(s) && a.Take? && Enabled(s, a)
    ensures TakersOk(Step(s, a))
  {
    hide ChannelOk, NotifiersOk, Distinct;
  }

  lemma NotTaken(s: State, a: Action, c: Chan)
    requires Inv(s) && a.Take? && Enabled(s, a) && c in s.waiter && c !in ListOf(s.waiters, a.id)
    ensures ChannelOk(Step(s, a), c)
  {
    hide Distinct, NotifiersOk;
    assert ChannelOk(s, c);
    hide ChannelOk, ListsOk;
    ChannelFrame(s, Step(s, a), c);
  }

  lemma TakenIsPending(s: State, a: Action, c: Chan)
    requires Inv(s) && a.Take? && Enabled(s, a) && c in ListOf(s.waiters, a.id)
    ensures c in Step(s, a).waiter && ChannelOk(Step(s, a), c)
  {
    hide Distinct, NotifiersOk;
    assert ChannelOk(s, c);
  }

  lemma SendKeepsLists(s: State, a: Action)
    requires Inv(s) && a.Send? && Enabled(s, a)
    ensures ListsOk(Step(s, a)) && NotifiersOk(Step(s, a))
    ensures s.notifiers[a.n].pending[0] !in s.notifiers[a.n].pending[1..]
  {
    hide ChannelOk;
    assert Distinct(s.notifiers[a.n].pending);
  }

  lemma SendKeepsInv(s: State, a: Action)
    requires Inv(s) && a.Send? && Enabled(s, a)
    ensures Inv(Step(s, a))
  {
    SendKeepsLists(s, a);
    SendKeepsTakers(s, a);
    SendKeepsChannels(s, a);
    hide Step, Enabled, ChannelOk, ListsOk, NotifiersOk, TakersOk;
  }

  lemma SendKeepsChannels(s: State, a: Action)
    requires Inv(s) && a.Send? && Enabled(s, a)
    ensures var t := Step(s, a);
            && t.buffer.Keys == t.waiter.Keys == t.sends.Keys && t.dropped == {}
            && (forall c | c in t.takenBy :: c in t.waiter && t.takenBy[c] in t.notifiers)
            && (forall c | c in t.waiter :: ChannelOk(t, c))
  {
    SendOwn(s, a);
    SendKeepsTakers(s, a);
    var ch := s.notifiers[a.n].pending[0];
    assert ch in s.buffer && ch in s.sends && s.buffer.Keys == s.waiter.Keys == s.sends.Keys;
    hide Inv, ChannelOk;
    forall c | c in Step(s, a).waiter && c != ch ensures ChannelOk(Step(s, a), c) {
      SendOthers(s, a, c);
    }
  }

  lemma SendKeepsTakers(s: State, a: Action)
    requires Inv(s) && a.Send? && Enabled(s, a)
    ensures TakersOk(Step(s, a))
  {
    hide ChannelOk, ListsOk, NotifiersOk;
  }

  lemma SendOthers(s: State, a: Action, c: Chan)
    requires Inv(s) && a.Send? && Enabled(s, a) && c in s.waiter && c != s.notifiers[a.n].pending[0]
    ensures ChannelOk(Step(s, a), c)
  {
    SendOwn(s, a);
    assert ChannelOk(s, c) && c in s.buffer && c in s.sends && (c in s.takenBy ==> s.takenBy[c] in s.notifiers);
    hide Inv, Listed, Pending, ChannelOk;
    ChannelFrame(s, Step(s, a), c);
  }

  /** The channel sent to was free, and the others are as listed and as pending as before. */
  lemma SendOwn(s: State, a: Action)
    requires Inv(s) && a.Send? && Enabled(s, a)
    ensures var t, ch := Step(s, a), s.notifiers[a.n].pending[0];
            && ch in t.waiter && ChannelOk(t, ch) && t.dropped == {}
            && forall c | c in s.waiter && c != ch :: (Listed(t, c) <==> Listed(s, c))
                && (Pending(t, c) <==> Pending(s, c))
  {
    SendKeepsLists(s, a);
    var pending := s.notifiers[a.n].pending;
    assert pending == [pending[0]] + pending[1..];
    assert pending[0] in pending;
    assert ChannelOk(s, pending[0]);
    hide ListsOk, Distinct;
  }

  lemma ReceiveOrTimeoutKeepsInv(s: State, a: Action)
    requires Inv(s) && (a.Receive? || a.Timeout?) && Enabled(s, a)
    ensures Inv(Step(s, a))
  {
    hide Distinct, NotifiersOk, ChannelOk, ListsOk, Listed, Pending;
    var t := Step(s, a);
    ReceiveOrTimeoutKeepsLists(s, a);
    ReceiveOrTimeoutOwn(s, a);
    forall c | c in t.waiter && c != a.ch ensures ChannelOk(t, c) {
      ChannelFrame(s, t, c);
    }
  }

  lemma ReceiveOrTimeoutKeepsLists(s: State, a: Action)
    requires Inv(s) && (a.Receive? || a.Timeout?) && Enabled(s, a)
    ensures ListsOk(Step(s, a)) && NotifiersOk(Step(s, a))
    ensures var t := Step(s, a);
            forall c | c in s.waiter :: (Listed(t, c) <==> Listed(s, c)) && (Pending(t, c) <==> Pending(s, c))
  {
    hide Distinct, ChannelOk;
  }

  lemma ReceiveOrTimeoutOwn(s: State, a: Action)
    requires Inv(s) && (a.Receive? || a.Timeout?) && Enabled(s, a)
    ensures ChannelOk(Step(s, a), a.ch)
  {
    hide ListsOk, NotifiersOk, Distinct;
    assert ChannelOk(s, a.ch);
  }

  lemma CleanupKeepsLists(s: State, a: Action)
    requires Inv(s) && a.Cleanup? && Enabled(s, a)
    ensures ListsOk(Step(s, a)) && NotifiersOk(Step(s, a))
  {
    hide ChannelOk, Without;
    WithoutKeepsOthers(ListOf(s.waiters, s.waiter[a.ch].id), a.ch);
  }

  lemma CleanupKeepsListed(s: State, a: Action, c: Chan)
    requires Inv(s) && a.Cleanup? && Enabled(s, a) && c in s.waiter
    ensures Listed(Step(s, a), c) <==> Listed(s, c) && c != a.ch
  {
    hide ChannelOk, Distinct, Without, NotifiersOk;
    WithoutKeepsOthers(ListOf(s.waiters, s.waiter[a.ch].id), a.ch);
  }

  lemma CleanupKeepsInv(s: State, a: Action)
    requires Inv(s) && a.Cleanup? && Enabled(s, a)
    ensures Inv(Step(s, a))
  {
    var t := Step(s, a);
    CleanupKeepsLists(s, a);
    hide ListsOk, NotifiersOk, CleanedUp;
    assert ChannelOk(s, a.ch);
    CleanupKeepsListed(s, a, a.ch);
    assert ChannelOk(t, a.ch);
    forall c | c in t.waiter && c != a.ch ensures ChannelOk(t, c) {
      CleanupKeepsListed(s, a, c);
      assert Pending(t, c) <==> Pending(s, c);
      ChannelFrame(s, t, c);
    }
    hide ChannelOk;
  }

  /** Every reachable state of every interleaving satisfies the invariant. */
  lemma {:induction false} InvAlways(schedule: seq<Action>)
    ensures Run(schedule).Some? ==> Inv(Run(schedule).value)
  {
    assert Inv(INIT);
    hide Inv, Step, Enabled;
    if schedule != [] && Run(schedule).Some? {
      var n := |schedule| - 1;
      InvAlways(schedule[..n]);
      var s, a := Run(schedule[..n]).value, schedule[n];
      match a
      case Register(_, _) => RegisterKeepsInv(s, a);
      case Take(_, _, _) => TakeKeepsInv(s, a);
      case Send(_) => SendKeepsInv(s, a);
      case Receive(_) => ReceiveOrTimeoutKeepsInv(s, a);
      case Timeout(_) => ReceiveOrTimeoutKeepsInv(s, a);
      case Cleanup(_) => CleanupKeepsInv(s, a);
    }
  }

  // ----- what callers rely on -----

  /** In every interleaving no send falls through to `default`, and no channel is sent to twice. */
  lemma NothingIsDropped(schedule: seq<Action>)
    requires Run(schedule).Some?
    ensures Run(schedule).value.dropped == {}
    ensures forall ch | ch in Run(schedule).value.sends :: Run(schedule).value.sends[ch] <= 1
    ensures var s := Run(schedule).value;
            forall n | n in s.notifiers && s.notifiers[n].pending != [] ::
              Enabled(s, Send(n)) && s.buffer[s.notifiers[n].pending[0]] == None
  {
    InvAlways(schedule);
    var s := Run(schedule).value;
    forall ch | ch in s.sends ensures s.sends[ch] <= 1 { assert ChannelOk(s, ch); }
    forall n | n in s.notifiers && s.notifiers[n].pending != []
      ensures Enabled(s, Send(n)) && s.buffer[s.notifiers[n].pending[0]] == None
    {
      assert s.notifiers[n].pending[0] in s.notifiers[n].pending;
      assert ChannelOk(s, s.notifiers[n].pending[0]);
    }
  }

  /**
   Whoever was listed when a call took the list has, once that call is through,
   received exactly that call's result or finds it in the channel; and no one
   ever receives anything else.
   */
  lemma EveryTakenWaiterIsServed(schedule: seq<Action>, ch: Chan)
    requires Run(schedule).Some? && ch in Run(schedule).value.waiter
    ensures var s := Run(schedule).value;
            ch in s.takenBy && s.takenBy[ch] in s.notifiers && s.notifiers[s.takenBy[ch]].pending == [] ==>
              var res := s.notifiers[s.takenBy[ch]].res;
              s.waiter[ch].phase == Received(res) || (ch in s.buffer && s.buffer[ch] == Some(res))
    ensures var s := Run(schedule).value;
            s.waiter[ch].phase.Received? ==>
              ch in s.takenBy && s.takenBy[ch] in s.notifiers
              && s.waiter[ch].phase.res == s.notifiers[s.takenBy[ch]].res
                  && s.notifiers[s.takenBy[ch]].id == s.waiter[ch].id
  {
    InvAlways(schedule);
    assert ChannelOk(Run(schedule).value, ch);
  }

  /** Taking a list commits the call to exactly the waiters listed for its request at that moment. */
  lemma TakeCommitsToTheList(schedule: seq<Action>, n: nat, id: Id, res: VerifyResult)
    requires Run(schedule + [Take(n, id, res)]).Some?
    ensures Run(schedule).Some?
    ensures var s, t := Run(schedule).value, Run(schedule + [Take(n, id, res)]).value;
            && (forall ch | ch in s.waiter :: ch in t.takenBy && t.takenBy[ch] == n <==>
                                              Listed(s, ch) && s.waiter[ch].id == id)
            && t.notifiers[n].res == res
            && id !in t.waiters
  {
    assert (schedule + [Take(n, id, res)])[..|schedule|] == schedule;
    InvAlways(schedule);
    var s := Run(schedule).value;
    forall ch | ch in s.waiter && ch in s.takenBy ensures s.takenBy[ch] != n {}
  }

  /**
   A timed-out waiter's cleanup takes away its own channel only, keeps the others in order and
   leaves no empty list.
   */
  lemma CleanupIsLocal(schedule: seq<Action>, ch: Chan)
    requires Run(schedule).Some? && Enabled(Run(schedule).value, Cleanup(ch))
    ensures var s := Run(schedule).value;
            var t := Step(s, Cleanup(ch));
            && !Listed(t, ch)
            && (forall id | id != s.waiter[ch].id :: ListOf(t.waiters, id) == ListOf(s.waiters, id))
            && (forall id | id in t.waiters :: t.waiters[id] != [])
            && var list := ListOf(s.waiters, s.waiter[ch].id);
               if exists k :: 0 <= k < |list| && list[k] == ch then
                 exists k :: 0 <= k < |list| && list[k] == ch
                     && ListOf(t.waiters, s.waiter[ch].id) == list[..k] + list[k + 1..]
               else ListOf(t.waiters, s.waiter[ch].id) == list
  {
    InvAlways(schedule);
    var s := Run(schedule).value;
    var list := ListOf(s.waiters, s.waiter[ch].id);
    WithoutKeepsOthers(list, ch);
    if k :| 0 <= k < |list| && list[k] == ch {
      WithoutKeepsOrder(list, ch, k);
    } else {
      assert ch !in list;
      WithoutAbsent(list, ch);
    }
  }
}
