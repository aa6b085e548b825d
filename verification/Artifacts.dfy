/**
 The keys a wallet fetches against the circuit it compiles: the service sets a schema
 up once and keeps the keys, while the wallet compiles the schema for each proof.
 */
module Artifacts {
  import opened Wrappers
  import opened ScalarField
  import opened Schema
  import opened Values
  import opened Compiler
  import KeyCache

  /** A canonical schema text as its fields and constraints, when it parses. */
  type Parser = string -> Option<(seq<FieldDef>, seq<Constraint>)>

  /** What the compiler shared by pkg and the wallet makes of a schema text in one second of Unix time. */
  function CircuitAt(lib: Library, parse: Parser, canon: string, second: int): Option<seq<Assertion>> {
    var (fields, cs) :- parse(canon);
    Compile(Timestamped, lib, fields, Clock(second, 1970, 1, 1), cs)
  }

  /** The setup run that a cached hash's keys come from. */
  function Source(h: string -> string, schedule: seq<KeyCache.Action>, x: string): KeyCache.SetupRun
    requires KeyCache.Run(h, schedule).Some? && x in KeyCache.Run(h, schedule).value.caches.vk
  {
    KeyCache.InvAlways(h, schedule);
    var s := KeyCache.Run(h, schedule).value;
    assert KeyCache.EntryOk(h, s, x);
    s.runs[s.from[x]]
  }

  lemma SourceIsCached(h: string -> string, schedule: seq<KeyCache.Action>, x: string)
    requires KeyCache.Run(h, schedule).Some? && x in KeyCache.Run(h, schedule).value.caches.vk
    ensures var s, r := KeyCache.Run(h, schedule).value, Source(h, schedule, x);
            && x in s.caches.pk && x in s.caches.schema
            && r.canon == s.caches.schema[x] && r.vk == s.caches.vk[x] && r.pk == s.caches.pk[x]
  {
    KeyCache.InvAlways(h, schedule);
    assert KeyCache.EntryOk(h, KeyCache.Run(h, schedule).value, x);
  }

  lemma CircuitsAgree(lib: Library, parse: Parser, canon: string, u: int, v: int)
    requires parse(canon).Some? && IsInt64(u) && IsInt64(v)
    ensures CircuitAt(lib, parse, canon, u).Some? == CircuitAt(lib, parse, canon, v).Some?
    ensures CircuitAt(lib, parse, canon, u).Some? ==>
              (CircuitAt(lib, parse, canon, u) == CircuitAt(lib, parse, canon, v) <==>
               !HasAge(parse(canon).value.1) || u == v)
  {
    var (fields, cs) := parse(canon).value;
    SameCircuitIff(lib, fields, cs, Clock(u, 1970, 1, 1), Clock(v, 1970, 1, 1));
    hide Compile, HasAge;
  }

  /**
   In every interleaving, a wallet that compiles a cached schema gets the assertions
   its keys were set up for exactly when the schema has no age constraint or the
   wallet compiles in the second of that setup.
   */
  lemma WalletFitsKeysIff(
    h: string -> string, schedule: seq<KeyCache.Action>, x: string, lib: Library, parse: Parser, second: int)
    requires KeyCache.Run(h, schedule).Some? && x in KeyCache.Run(h, schedule).value.caches.vk
    requires IsInt64(second) && IsInt64(Source(h, schedule, x).second)
    requires parse(Source(h, schedule, x).canon).Some?
    ensures var r := Source(h, schedule, x);
            CircuitAt(lib, parse, r.canon, second).Some? ==>
              (CircuitAt(lib, parse, r.canon, second) == CircuitAt(lib, parse, r.canon, r.second) <==>
               !HasAge(parse(r.canon).value.1) || second == r.second)
  {
    hide *;
    CircuitsAgree(lib, parse, Source(h, schedule, x).canon, second, Source(h, schedule, x).second);
  }

  lemma SourceStays(h: string -> string, before: seq<KeyCache.Action>, after: seq<KeyCache.Action>, x: string)
    requires KeyCache.Run(h, before + after).Some? && KeyCache.Run(h, before).Some?
    requires x in KeyCache.Run(h, before).value.caches.vk && KeyCache.NoRival(h, KeyCache.Run(h, before).value, x)
    ensures x in KeyCache.Run(h, before + after).value.caches.vk
    ensures Source(h, before + after, x) == Source(h, before, x)
  {
    hide KeyCache.Run, KeyCache.NoRival;
    KeyCache.InvAlways(h, before);
    KeyCache.SettledKeysStay(h, before, after, x);
    KeyCache.RunsGrow(h, before, after);
  }

  /**
   The keys of a settled schema are never set up again, so one with an age constraint
   fits its keys in one second only, at any later time and after any further calls.
   */
  lemma AgeSchemaFitsOneSecond(
    h: string -> string, before: seq<KeyCache.Action>, after: seq<KeyCache.Action>, x: string,
    lib: Library, parse: Parser, second: int)
    requires KeyCache.Run(h, before + after).Some? && KeyCache.Run(h, before).Some?
    requires x in KeyCache.Run(h, before).value.caches.vk && KeyCache.NoRival(h, KeyCache.Run(h, before).value, x)
    requires IsInt64(second) && IsInt64(Source(h, before, x).second)
    requires parse(Source(h, before, x).canon).Some? && HasAge(parse(Source(h, before, x).canon).value.1)
    ensures x in KeyCache.Run(h, before + after).value.caches.vk
    ensures Source(h, before + after, x) == Source(h, before, x)
    ensures var r := Source(h, before, x);
            var wallet := CircuitAt(lib, parse, r.canon, second);
            wallet.Some? ==> (wallet == CircuitAt(lib, parse, r.canon, r.second) <==> second == r.second)
  {
    hide *;
    SourceStays(h, before, after, x);
    WalletFitsKeysIff(h, before, x, lib, parse, second);
  }
}
