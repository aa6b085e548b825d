/**
 The verifier's key caches: concurrent calls of `ensureVKForSchema`, followed by
 the request being stored.  An action is one critical section of a call.
 */
module KeyCache {
  import opened Wrappers

  type Bytes = seq<bv8>

  /** What one Groth16 setup produced for one canonical schema, compiled in one second of Unix time. */
  datatype SetupRun = SetupRun(canon: string, vk: Bytes, pk: Bytes, second: int)

  datatype Caches = Caches(vk: map<string, Bytes>, pk: map<string, Bytes>, schema: map<string, string>)

  predicate Hit(c: Caches, hash: string) { hash in c.vk && hash in c.pk }

  function Committed(c: Caches, hash: string, r: SetupRun): Caches {
    Caches(c.vk[hash := r.vk], c.pk[hash := r.pk], c.schema[hash := r.canon])
  }

  /** The three cache fields of the service. */
  class ServiceCaches {
    var vkCache: map<string, Bytes>
    var pkCache: map<string, Bytes>
    var schemaCache: map<string, string>

    function Contents(): Caches
      reads this
    {
      Caches(vkCache, pkCache, schemaCache)
    }

    constructor ()
      ensures Contents() == Caches(map[], map[], map[])
    {
      vkCache, pkCache, schemaCache := map[], map[], map[];
    }

    /** The section under the read lock. */
    method Check(hash: string) returns (hit: bool)
      ensures hit == Hit(Contents(), hash)
    {
      var vkOK := hash in vkCache;
      var pkOK := hash in pkCache;
      return vkOK && pkOK;
    }

    /** The section under the write lock. */
    method Commit(hash: string, r: SetupRun)
      modifies this
      ensures Contents() == Committed(old(Contents()), hash, r)
    {
      vkCache := vkCache[hash := r.vk];
      pkCache := pkCache[hash := r.pk];
      schemaCache := schemaCache[hash := r.canon];
    }

    /** One whole call without interference; `setup` is `None` when parsing, compiling or the setup fails. */
    method EnsureVKForSchema(
        h: string -> string, canon: string, setup: Option<(Bytes, Bytes)>, second: int) returns (hash: Option<string>)
      modifies this
      ensures Hit(old(Contents()), h(canon)) ==> hash == Some(h(canon)) && Contents() == old(Contents())
      ensures !Hit(old(Contents()), h(canon)) && setup == None ==> hash == None && Contents() == old(Contents())
      ensures !Hit(old(Contents()), h(canon)) && setup.Some? ==>
                && hash == Some(h(canon))
                && var r := SetupRun(canon, setup.value.0, setup.value.1, second);
                   Contents() == Committed(old(Contents()), h(canon), r)
    {
      var hit := Check(h(canon));
      if hit { return Some(h(canon)); }
      if setup == None { return None; }
      Commit(h(canon), SetupRun(canon, setup.value.0, setup.value.1, second));
      return Some(h(canon));
    }
  }

  // ----- interleaved calls -----

  /** How far a call has come. */
  datatype Call =
    | Checking(canon: string)
    | Building(canon: string)
    | Built(canon: string, run: nat)
    | Ready(canon: string)
    | Stored
    | Failed

  /** `runs` records every setup, `from` the run whose keys a hash holds, `stored` the hashes of stored requests. */
  datatype State = State(
    caches: Caches,
    calls: map<nat, Call>,
    runs: seq<SetupRun>,
    from: map<string, nat>,
    stored: set<string>)

  const INIT: State := State(Caches(map[], map[], map[]), map[], [], map[], {})

  datatype Action =
    | Start(t: nat, canon: string)
    | Check(t: nat)
    | Setup(t: nat, keys: Option<(Bytes, Bytes)>, second: int)
    | Commit(t: nat)
    | Store(t: nat)

  predicate Enabled(s: State, a: Action) {
    match a
    case Start(t, _) => t !in s.calls
    case Check(t) => t in s.calls && s.calls[t].Checking?
    case Setup(t, _, _) => t in s.calls && s.calls[t].Building?
    case Commit(t) => t in s.calls && s.calls[t].Built? && s.calls[t].run < |s.runs|
    case Store(t) => t in s.calls && s.calls[t].Ready?
  }

  function Step(h: string -> string, s: State, a: Action): State
    requires Enabled(s, a)
  {
    match a
    case Start(t, canon) => s.(calls := s.calls[t := Checking(canon)])
    case Check(t) =>
      var canon := s.calls[t].canon;
      s.(calls := s.calls[t := if Hit(s.caches, h(canon)) then Ready(canon) else Building(canon)])
    case Setup(t, keys, second) =>
      var canon := s.calls[t].canon;
      if keys == None then s.(calls := s.calls[t := Failed])
      else s.(calls := s.calls[t := Built(canon, |s.runs|)],
          runs := s.runs + [SetupRun(canon, keys.value.0, keys.value.1, second)])
    case Commit(t) =>
      var c := s.calls[t];
      s.(calls := s.calls[t := Ready(c.canon)],
         caches := Committed(s.caches, h(c.canon), s.runs[c.run]),
         from := s.from[h(c.canon) := c.run])
    case Store(t) =>
      s.(calls := s.calls[t := Stored], stored := s.stored + {h(s.calls[t].canon)})
  }

  function Run(h: string -> string, schedule: seq<Action>): Option<State> {
    if schedule == [] then Some(INIT)
    else
      var n := |schedule| - 1;
      var s :- Run(h, schedule[..n]);
      if Enabled(s, schedule[n]) then Some(Step(h, s, schedule[n])) else None
  }

  /** The three entries of a hash are what this setup run was given and gave. */
  predicate IsRun(s: State, x: string, r: SetupRun)
    requires x in s.caches.vk && x in s.caches.pk && x in s.caches.schema
  {
    r.canon == s.caches.schema[x] && r.vk == s.caches.vk[x] && r.pk == s.caches.pk[x]
  }

  /** The three entries of a hash are one setup run of a schema with that hash. */
  predicate EntryOk(h: string -> string, s: State, x: string) {
    && x in s.caches.vk && x in s.caches.pk && x in s.caches.schema && x in s.from
    && s.from[x] < |s.runs|
    && IsRun(s, x, s.runs[s.from[x]])
    && h(s.caches.schema[x]) == x
  }

  predicate CallOk(h: string -> string, s: State, c: Call) {
    match c
    case Built(canon, run) => run < |s.runs| && s.runs[run].canon == canon
    case Ready(canon) => h(canon) in s.caches.vk
    case _ => true
  }

  predicate Inv(h: string -> string, s: State) {
    && s.caches.vk.Keys == s.caches.pk.Keys == s.caches.schema.Keys
    && (forall x | x in s.caches.vk :: EntryOk(h, s, x))
    && (forall t | t in s.calls :: CallOk(h, s, s.calls[t]))
    && s.stored <= s.caches.vk.Keys
    && RunsOwned(s)
  }

  /** A run that is not yet committed belongs to one call and to no hash. */
  predicate RunsOwned(s: State) {
    && (forall t, u | t in s.calls && u in s.calls && t != u && s.calls[t].Built? && s.calls[u].Built? ::
          s.calls[t].run != s.calls[u].run)
    && (forall t, x | t in s.calls && s.calls[t].Built? && x in s.from :: s.from[x] != s.calls[t].run)
    && (forall x | x in s.from :: s.from[x] < |s.runs|)
  }

  lemma StepKeepsRunsOwned(h: string -> string, s: State, a: Action)
    requires Inv(h, s) && Enabled(s, a)
    ensures RunsOwned(Step(h, s, a))
  {
    forall t | t in s.calls && s.calls[t].Built? ensures s.calls[t].run < |s.runs| {
      assert CallOk(h, s, s.calls[t]);
    }
  }

  lemma StepKeepsEntries(h: string -> string, s: State, a: Action)
    requires Inv(h, s) && Enabled(s, a)
    ensures forall x | x in Step(h, s, a).caches.vk :: EntryOk(h, Step(h, s, a), x)
  {
    hide RunsOwned;
    var n := Step(h, s, a);
    forall x | x in n.caches.vk ensures EntryOk(h, n, x) {
      if x in s.caches.vk { assert EntryOk(h, s, x); }
      if a.Commit? { assert CallOk(h, s, s.calls[a.t]); }
    }
  }

  lemma StepKeepsCalls(h: string -> string, s: State, a: Action)
    requires Inv(h, s) && Enabled(s, a)
    ensures forall t | t in Step(h, s, a).calls :: CallOk(h, Step(h, s, a), Step(h, s, a).calls[t])
  {
    hide RunsOwned, EntryOk;
    var n := Step(h, s, a);
    forall t | t in n.calls ensures CallOk(h, n, n.calls[t]) {
      if t in s.calls { assert CallOk(h, s, s.calls[t]); }
    }
  }

  lemma StoredStayCached(h: string -> string, s: State, a: Action)
    requires Inv(h, s) && Enabled(s, a)
    ensures var t := Step(h, s, a);
            t.stored <= t.caches.vk.Keys && t.caches.vk.Keys == t.caches.pk.Keys == t.caches.schema.Keys
  {
    hide RunsOwned, EntryOk;
    if a.Store? { assert CallOk(h, s, s.calls[a.t]); }
  }

  lemma StepKeepsInv(h: string -> string, s: State, a: Action)
    requires Inv(h, s) && Enabled(s, a)
    ensures Inv(h, Step(h, s, a))
  {
    hide RunsOwned, EntryOk;
    StepKeepsRunsOwned(h, s, a);
    StepKeepsEntries(h, s, a);
    StepKeepsCalls(h, s, a);
    StoredStayCached(h, s, a);
    hide CallOk;
  }

  lemma {:induction false} InvAlways(h: string -> string, schedule: seq<Action>)
    ensures Run(h, schedule).Some? ==> Inv(h, Run(h, schedule).value)
  {
    assert Inv(h, INIT);
    hide Inv, Step, Enabled;
    if schedule != [] && Run(h, schedule).Some? {
      var n := |schedule| - 1;
      InvAlways(h, schedule[..n]);
      StepKeepsInv(h, Run(h, schedule[..n]).value, schedule[n]);
    }
  }

  /**
   In every interleaving the caches cover the same hashes, each hash holds the
   schema, VK and PK of one and the same setup run, and every stored request's
   hash is cached, with a non-empty VK whenever setups produce non-empty bytes.
   */
  lemma CachesAreConsistent(h: string -> string, schedule: seq<Action>)
    requires Run(h, schedule).Some?
    ensures var s := Run(h, schedule).value;
            && s.caches.vk.Keys == s.caches.pk.Keys == s.caches.schema.Keys
            && (forall x | x in s.caches.vk ::
                  h(s.caches.schema[x]) == x && exists r :: r in s.runs && IsRun(s, x, r))
            && s.stored <= s.caches.vk.Keys
            && ((forall r | r in s.runs :: r.vk != []) ==> forall x | x in s.stored :: s.caches.vk[x] != [])
  {
    InvAlways(h, schedule);
    var s := Run(h, schedule).value;
    forall x | x in s.caches.vk
      ensures h(s.caches.schema[x]) == x && exists r :: r in s.runs && IsRun(s, x, r)
    {
      assert EntryOk(h, s, x);
    }
  }

  /** The setup that a run of one call stands for. */
  predicate IsSetup(a: Action, r: SetupRun) {
    a.Setup? && a.keys == Some((r.vk, r.pk)) && a.second == r.second
  }

  lemma {:induction false} RunsAreSetups(h: string -> string, schedule: seq<Action>, r: SetupRun)
    requires Run(h, schedule).Some? && r in Run(h, schedule).value.runs
    ensures exists k :: 0 <= k < |schedule| && IsSetup(schedule[k], r)
  {
    var n := |schedule| - 1;
    if r in Run(h, schedule[..n]).value.runs {
      RunsAreSetups(h, schedule[..n], r);
      var k :| 0 <= k < n && IsSetup(schedule[..n][k], r);
      assert IsSetup(schedule[k], r);
    } else {
      assert IsSetup(schedule[n], r);
    }
  }

  /** The VK and PK of a cached hash are the VK and the PK that one setup of the schedule gave. */
  lemma KeysComeFromOneSetup(h: string -> string, schedule: seq<Action>, x: string)
    requires Run(h, schedule).Some? && x in Run(h, schedule).value.caches.vk
    ensures var s := Run(h, schedule).value;
            x in s.caches.pk
            && exists k :: 0 <= k < |schedule| && schedule[k].Setup?
                && schedule[k].keys == Some((s.caches.vk[x], s.caches.pk[x]))
  {
    CachesAreConsistent(h, schedule);
    var s := Run(h, schedule).value;
    hide Run;
    var r :| r in s.runs && IsRun(s, x, r);
    RunsAreSetups(h, schedule, r);
  }

  /** No call is between missing the cache for this hash and committing its own keys. */
  predicate NoRival(h: string -> string, s: State, x: string) {
    forall t | t in s.calls :: s.calls[t].Building? || s.calls[t].Built? ==> h(s.calls[t].canon) != x
  }

  /** Once a hash is cached and no rival call is under way, its keys never change again. */
  lemma {:induction false} SettledKeysStay(h: string -> string, before: seq<Action>, after: seq<Action>, x: string)
    requires Run(h, before + after).Some? && Run(h, before).Some?
    requires x in Run(h, before).value.caches.vk && NoRival(h, Run(h, before).value, x)
    ensures var s, t := Run(h, before).value, Run(h, before + after).value;
            && x in t.caches.vk && x in t.caches.pk && x in t.caches.schema && x in s.from && x in t.from
            && t.caches.vk[x] == s.caches.vk[x] && t.from[x] == s.from[x] && NoRival(h, t, x)
  {
    InvAlways(h, before);
    InvAlways(h, before + after);
    assert EntryOk(h, Run(h, before).value, x);
    if after == [] {
      assert before + after == before;
    } else {
      var n := |after| - 1;
      assert (before + after)[..|before| + n] == before + after[..n];
      assert (before + after)[|before| + n] == after[n];
      SettledKeysStay(h, before, after[..n], x);
      var s := Run(h, before + after[..n]).value;
      InvAlways(h, before + after[..n]);
      assert EntryOk(h, s, x);
      SettledStep(h, s, after[n], x);
    }
  }

  /** Setup runs are never forgotten or changed. */
  lemma {:induction false} RunsGrow(h: string -> string, before: seq<Action>, after: seq<Action>)
    requires Run(h, before + after).Some? && Run(h, before).Some?
    ensures Run(h, before).value.runs <= Run(h, before + after).value.runs
  {
    if after == [] {
      assert before + after == before;
    } else {
      var n := |after| - 1;
      assert (before + after)[..|before| + n] == before + after[..n];
      assert (before + after)[|before| + n] == after[n];
      RunsGrow(h, before, after[..n]);
    }
  }

  lemma SettledStep(h: string -> string, s: State, a: Action, x: string)
    requires Inv(h, s) && Enabled(s, a) && x in s.caches.vk && NoRival(h, s, x)
    ensures var t := Step(h, s, a);
            && x in t.caches.vk && x in s.from && x in t.from
            && t.caches.vk[x] == s.caches.vk[x] && t.from[x] == s.from[x] && NoRival(h, t, x)
  {
    assert EntryOk(h, s, x);
  }

  /** A rival call can always replace the keys of a cached hash, so the previous condition is exact. */
  lemma RivalCanReplaceKeys(h: string -> string, before: seq<Action>, x: string) returns (after: seq<Action>)
    requires Run(h, before).Some?
    requires x in Run(h, before).value.caches.vk && !NoRival(h, Run(h, before).value, x)
    ensures Run(h, before + after).Some?
    ensures var s, t := Run(h, before).value, Run(h, before + after).value;
            x in s.from && x in t.from && t.from[x] != s.from[x]
  {
    InvAlways(h, before);
    var s := Run(h, before).value;
    assert EntryOk(h, s, x);
    var t :| t in s.calls && (s.calls[t].Building? || s.calls[t].Built?) && h(s.calls[t].canon) == x;
    assert CallOk(h, s, s.calls[t]);
    if s.calls[t].Built? {
      after := [Commit(t)];
      RunOneMore(h, before, Commit(t));
    } else {
      var setup := Setup(t, Some(([0], [0])), 0);
      RunOneMore(h, before, setup);
      RunOneMore(h, before + [setup], Commit(t));
      after := [setup, Commit(t)];
      assert before + after == before + [setup] + [Commit(t)];
    }
  }

  /** A call on its way to committing other bytes for this hash. */
  predicate Differs(h: string -> string, s: State, x: string, t: nat)
    requires x in s.caches.vk && x in s.caches.pk
  {
    && t in s.calls
    && match s.calls[t]
       case Building(canon) => h(canon) == x
       case Built(canon, run) =>
         h(canon) == x && run < |s.runs| && (s.runs[run].vk != s.caches.vk[x] || s.runs[run].pk != s.caches.pk[x])
       case _ => false
  }

  /** Both keys of a hash are the same bytes in every continuation. */
  ghost predicate KeysAreFinal(h: string -> string, before: seq<Action>, x: string)
    requires Run(h, before).Some? && x in Run(h, before).value.caches.vk && x in Run(h, before).value.caches.pk
  {
    forall after :: Run(h, before + after).Some? ==> SameKeys(Run(h, before).value, Run(h, before + after).value, x)
  }

  predicate SameKeys(s: State, t: State, x: string)
    requires x in s.caches.vk && x in s.caches.pk
  {
    && x in t.caches.vk && t.caches.vk[x] == s.caches.vk[x]
    && x in t.caches.pk && t.caches.pk[x] == s.caches.pk[x]
  }

  /**
   A wallet that fetched the PK of a stored request can rely on the cached VK exactly
   when no concurrent call is on its way to committing other bytes.
   */
  lemma KeysAreFinalIff(h: string -> string, before: seq<Action>, x: string)
    requires Run(h, before).Some? && x in Run(h, before).value.caches.vk
    ensures x in Run(h, before).value.caches.pk
    ensures KeysAreFinal(h, before, x) <==> forall t :: !Differs(h, Run(h, before).value, x, t)
  {
    InvAlways(h, before);
    var s := Run(h, before).value;
    if t :| Differs(h, s, x, t) {
      var after := ReplaceKeys(h, before, x, t);
    } else {
      forall after | Run(h, before + after).Some? ensures SameKeys(s, Run(h, before + after).value, x) {
        KeysStay(h, before, after, x);
      }
    }
  }

  lemma ReplaceKeys(h: string -> string, before: seq<Action>, x: string, t: nat) returns (after: seq<Action>)
    requires Run(h, before).Some?
    requires x in Run(h, before).value.caches.vk && x in Run(h, before).value.caches.pk
        && Differs(h, Run(h, before).value, x, t)
    ensures Run(h, before + after).Some? && !SameKeys(Run(h, before).value, Run(h, before + after).value, x)
  {
    var s := Run(h, before).value;
    if s.calls[t].Built? {
      after := [Commit(t)];
      RunOneMore(h, before, Commit(t));
    } else {
      var setup := Setup(t, Some((s.caches.vk[x] + [0], s.caches.pk[x])), 0);
      RunOneMore(h, before, setup);
      RunOneMore(h, before + [setup], Commit(t));
      after := [setup, Commit(t)];
      assert before + after == before + [setup] + [Commit(t)];
    }
  }

  lemma {:induction false} KeysStay(h: string -> string, before: seq<Action>, after: seq<Action>, x: string)
    requires Run(h, before).Some? && Run(h, before + after).Some?
    requires x in Run(h, before).value.caches.vk && x in Run(h, before).value.caches.pk
    requires forall t :: !Differs(h, Run(h, before).value, x, t)
    ensures SameKeys(Run(h, before).value, Run(h, before + after).value, x)
    ensures forall t :: !Differs(h, Run(h, before + after).value, x, t)
  {
    hide Step, Enabled, Differs;
    if after == [] {
      assert before + after == before;
    } else {
      var n := |after| - 1;
      assert (before + after)[..|before| + n] == before + after[..n];
      assert (before + after)[|before| + n] == after[n];
      KeysStay(h, before, after[..n], x);
      InvAlways(h, before + after[..n]);
      hide Run, Inv;
      KeysStayOneStep(h, Run(h, before + after[..n]).value, after[n], x);
    }
  }

  lemma KeysStayOneStep(h: string -> string, s: State, a: Action, x: string)
    requires Inv(h, s) && Enabled(s, a) && x in s.caches.vk && x in s.caches.pk && forall t :: !Differs(h, s, x, t)
    ensures SameKeys(s, Step(h, s, a), x)
    ensures forall t :: !Differs(h, Step(h, s, a), x, t)
  {
    hide RunsOwned, EntryOk;
    var n := Step(h, s, a);
    assert !a.Start? ==> !Differs(h, s, x, a.t);
    forall t ensures !Differs(h, n, x, t) {
      assert !Differs(h, s, x, t);
      if t in s.calls { assert CallOk(h, s, s.calls[t]); }
    }
  }

  lemma RunOneMore(h: string -> string, schedule: seq<Action>, a: Action)
    requires Run(h, schedule).Some? && Enabled(Run(h, schedule).value, a)
    ensures Run(h, schedule + [a]) == Some(Step(h, Run(h, schedule).value, a))
  {
    assert (schedule + [a])[..|schedule|] == schedule;
  }
}
